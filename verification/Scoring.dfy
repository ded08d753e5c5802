/** From test scores to a recommended tier: category means, their weighted sum, the first threshold met. */
module Scoring {
  import opened OrderStatistics

  datatype Category = CodeGeneration | Reasoning | Debugging | Refactoring

  /** `list(TestCategory)` */
  const CATEGORIES: seq<Category> := [CodeGeneration, Reasoning, Debugging, Refactoring]

  datatype TestResult = TestResult(category: Category, score: real)

  /** Weights by category, and the tiers with their thresholds in ascending tier order. */
  datatype Config = Config(weights: map<Category, real>, tiers: seq<(int, real)>)

  function ScoresOf(results: seq<TestResult>, category: Category): seq<real> {
    if results == [] then []
    else (if results[0].category == category then [results[0].score] else []) + ScoresOf(results[1..], category)
  }

  /** `category_weights.get(category, 0.0)` */
  function Weight(c: Config, category: Category): real {
    if category in c.weights then c.weights[category] else 0.0
  }

  function Weighed(w: real, scores: seq<real>): real
    requires scores != []
  {
    w * Mean(scores)
  }

  /** The share of one category in the weighted score; categories without results or weight have none. */
  function Share(c: Config, results: seq<TestResult>, category: Category): real {
    var scores := ScoresOf(results, category);
    if scores == [] then 0.0 else Weighed(Weight(c, category), scores)
  }

  function Shares(c: Config, results: seq<TestResult>, categories: seq<Category>): seq<real> {
    seq(|categories|, i requires 0 <= i < |categories| => Share(c, results, categories[i]))
  }

  function WeightedScore(c: Config, results: seq<TestResult>): real {
    Sum(Shares(c, results, CATEGORIES))
  }

  /** The first tier whose threshold is met, else 5. */
  function Tier(tiers: seq<(int, real)>, score: real): int {
    if tiers == [] then 5
    else if score >= tiers[0].1 then tiers[0].0
    else Tier(tiers[1..], score)
  }

  /** The weighted-score loop of `_generate_summary`, then `_determine_tier`. */
  method Recommend(c: Config, results: seq<TestResult>) returns (score: real, tier: int)
    ensures score == WeightedScore(c, results) && tier == Tier(c.tiers, score) && IsTier(c.tiers, score, tier)
  {
    score := 0.0;
    ghost var shares := Shares(c, results, CATEGORIES);
    for i := 0 to |CATEGORIES|
      invariant score == Sum(shares[..i])
    {
      SumTake(shares, i);
      var scores := ScoresOf(results, CATEGORIES[i]);
      if scores != [] {
        score := score + Weight(c, CATEGORIES[i]) * Mean(scores);
      }
    }
    assert shares[..|shares|] == shares;
    tier := DetermineTier(c.tiers, score);
  }

  method DetermineTier(tiers: seq<(int, real)>, score: real) returns (tier: int)
    ensures tier == Tier(tiers, score) && IsTier(tiers, score, tier)
  {
    for i := 0 to |tiers|
      invariant Tier(tiers, score) == Tier(tiers[i..], score)
      invariant forall j :: 0 <= j < i ==> score < tiers[j].1
    {
      if score >= tiers[i].1 {
        return tiers[i].0;
      }
    }
    tier := 5;
  }

  lemma SumTake(x: seq<real>, i: nat)
    requires i < |x|
    ensures Sum(x[..i + 1]) == Sum(x[..i]) + x[i]
  {
    assert x[..i + 1] == x[..i] + [x[i]];
    SumSplit(x[..i], [x[i]]);
    SumOne(x[i]);
  }

  lemma SumOne(x: real)
    ensures Sum([x]) == x
  {
    assert [x][1..] == [];
  }

  // ----- The weighted score in plain terms -----

  /** How many tests of the category there are. */
  function Tests(results: seq<TestResult>, category: Category): nat {
    if results == [] then 0
    else (if results[0].category == category then 1 else 0) + Tests(results[1..], category)
  }

  /** Their total score. */
  function Total(results: seq<TestResult>, category: Category): real {
    if results == [] then 0.0
    else (if results[0].category == category then results[0].score else 0.0) + Total(results[1..], category)
  }

  /** A category with tests and a weight counts its weight times its average score; any other counts nothing. */
  predicate IsPart(c: Config, results: seq<TestResult>, category: Category, part: real) {
    if Tests(results, category) == 0 || category !in c.weights then part == 0.0
    else part * Tests(results, category) as real == c.weights[category] * Total(results, category)
  }

  lemma {:induction false} ScoresMeaning(results: seq<TestResult>, category: Category)
    ensures |ScoresOf(results, category)| == Tests(results, category)
    ensures Sum(ScoresOf(results, category)) == Total(results, category)
  {
    if results != [] {
      ScoresMeaning(results[1..], category);
      var rest := ScoresOf(results[1..], category);
      assert [] + rest == rest;
      assert ([results[0].score] + rest)[1..] == rest;
    }
  }

  lemma PartIs(w: real, total: real, n: real, part: real)
    requires n > 0.0 && part * n == w * total
    ensures part == w * (total / n)
  {
    assert part == part * n / n;
    assert w * total / n == w * (total / n);
  }

  lemma WeighedIs(w: real, scores: seq<real>, part: real)
    requires scores != [] && part * |scores| as real == w * Sum(scores)
    ensures Weighed(w, scores) == part
  {
    PartIs(w, Sum(scores), |scores| as real, part);
  }

  lemma PartNothing(w: real, scores: seq<real>)
    requires scores != [] && w == 0.0
    ensures Weighed(w, scores) == 0.0
  {
  }

  lemma ShareIsPart(c: Config, results: seq<TestResult>, category: Category, part: real)
    requires IsPart(c, results, category, part)
    ensures Share(c, results, category) == part
  {
    ScoresMeaning(results, category);
    var scores := ScoresOf(results, category);
    if scores == [] {
    } else if category in c.weights {
      WeighedIs(c.weights[category], scores, part);
    } else {
      PartNothing(Weight(c, category), scores);
    }
  }

  /** The weighted score is the sum of the four parts. */
  lemma WeightedScoreMeaning(
    c: Config, results: seq<TestResult>, generation: real, reasoning: real, debugging: real, refactoring: real)
    requires IsPart(c, results, CodeGeneration, generation) && IsPart(c, results, Reasoning, reasoning)
    requires IsPart(c, results, Debugging, debugging) && IsPart(c, results, Refactoring, refactoring)
    ensures WeightedScore(c, results) == generation + reasoning + debugging + refactoring
  {
    ShareIsPart(c, results, CodeGeneration, generation);
    ShareIsPart(c, results, Reasoning, reasoning);
    ShareIsPart(c, results, Debugging, debugging);
    ShareIsPart(c, results, Refactoring, refactoring);
    SumFour(generation, reasoning, debugging, refactoring);
    assert Shares(c, results, CATEGORIES) == [generation, reasoning, debugging, refactoring];
  }

  lemma SumFour(w: real, x: real, y: real, z: real)
    ensures Sum([w, x, y, z]) == w + x + y + z
  {
    assert [w, x, y, z] == [w] + ([x] + ([y] + [z]));
    SumOne(z);
    SumCons(y, [z]);
    SumCons(x, [y] + [z]);
    SumCons(w, [x] + ([y] + [z]));
  }

  /** The tier is that of the first threshold the score meets, and 5 when it meets none. */
  predicate IsTier(tiers: seq<(int, real)>, score: real, tier: int) {
    || ((forall i :: 0 <= i < |tiers| ==> score < tiers[i].1) && tier == 5)
    || exists i :: 0 <= i < |tiers| && score >= tiers[i].1 && tier == tiers[i].0
         && forall j :: 0 <= j < i ==> score < tiers[j].1
  }

  // ----- Better scores, higher weighted score -----

  /** The same tests, no score lower. */
  predicate NoWorse(a: seq<TestResult>, b: seq<TestResult>) {
    |a| == |b| && forall i :: 0 <= i < |a| ==> a[i].category == b[i].category && a[i].score <= b[i].score
  }

  predicate WeightsNonNegative(c: Config) {
    forall category <- c.weights :: c.weights[category] >= 0.0
  }

  lemma {:induction false} ScoresGrow(a: seq<TestResult>, b: seq<TestResult>, category: Category)
    requires NoWorse(a, b)
    ensures |ScoresOf(a, category)| == |ScoresOf(b, category)|
    ensures Sum(ScoresOf(a, category)) <= Sum(ScoresOf(b, category))
  {
    if a != [] {
      ScoresGrow(a[1..], b[1..], category);
      SumSplit([a[0].score], ScoresOf(a[1..], category));
      SumSplit([b[0].score], ScoresOf(b[1..], category));
      SumOne(a[0].score);
      SumOne(b[0].score);
      assert [] + ScoresOf(a[1..], category) == ScoresOf(a[1..], category);
      assert [] + ScoresOf(b[1..], category) == ScoresOf(b[1..], category);
    }
  }

  lemma WeighedMeanGrows(w: real, x: seq<real>, y: seq<real>)
    requires |x| == |y| > 0 && Sum(x) <= Sum(y) && w >= 0.0
    ensures Weighed(w, x) <= Weighed(w, y)
  {
    DivideMonotone(Sum(x), Sum(y), |x| as real);
    ScaleMonotone(w, Mean(x), Mean(y));
  }

  lemma WeightNonNegative(c: Config, category: Category)
    requires WeightsNonNegative(c)
    ensures Weight(c, category) >= 0.0
  {
  }

  lemma ShareGrows(c: Config, a: seq<TestResult>, b: seq<TestResult>, category: Category)
    requires NoWorse(a, b) && WeightsNonNegative(c)
    ensures Share(c, a, category) <= Share(c, b, category)
  {
    var x, y := ScoresOf(a, category), ScoresOf(b, category);
    ScoresGrow(a, b, category);
    WeightNonNegative(c, category);
    if x != [] {
      WeighedMeanGrows(Weight(c, category), x, y);
    }
  }

  lemma WeightedScoreGrows(c: Config, a: seq<TestResult>, b: seq<TestResult>)
    requires NoWorse(a, b) && WeightsNonNegative(c)
    ensures WeightedScore(c, a) <= WeightedScore(c, b)
  {
    forall i | 0 <= i < |CATEGORIES| ensures Share(c, a, CATEGORIES[i]) <= Share(c, b, CATEGORIES[i]) {
      ShareGrows(c, a, b, CATEGORIES[i]);
    }
    SumDominates(Shares(c, a, CATEGORIES), Shares(c, b, CATEGORIES));
  }

  // ----- What one score is worth -----

  /** `results` with a new score for test `i`. */
  function Rescored(results: seq<TestResult>, i: nat, score: real): seq<TestResult>
    requires i < |results|
  {
    results[i := results[i].(score := score)]
  }

  lemma ScoresCons(r: TestResult, rest: seq<TestResult>, category: Category)
    ensures |ScoresOf([r] + rest, category)| == |ScoresOf(rest, category)| + if r.category == category then 1 else 0
    ensures Sum(ScoresOf([r] + rest, category))
         == Sum(ScoresOf(rest, category)) + if r.category == category then r.score else 0.0
  {
    assert ([r] + rest)[1..] == rest;
    if r.category == category {
      assert ([r.score] + ScoresOf(rest, category))[1..] == ScoresOf(rest, category);
    } else {
      assert [] + ScoresOf(rest, category) == ScoresOf(rest, category);
    }
  }

  lemma {:induction false} ScoresRescored(results: seq<TestResult>, i: nat, score: real, category: Category)
    requires i < |results|
    ensures var gain := if results[i].category == category then score - results[i].score else 0.0;
      && |ScoresOf(Rescored(results, i, score), category)| == |ScoresOf(results, category)|
      && Sum(ScoresOf(Rescored(results, i, score), category)) == Sum(ScoresOf(results, category)) + gain
      && (results[i].category == category ==> ScoresOf(results, category) != [])
  {
    var rest := results[1..];
    assert results == [results[0]] + rest;
    ScoresCons(results[0], rest, category);
    if i == 0 {
      assert Rescored(results, i, score) == [results[0].(score := score)] + rest;
      ScoresCons(results[0].(score := score), rest, category);
    } else {
      assert Rescored(results, i, score) == [results[0]] + Rescored(rest, i - 1, score);
      ScoresRescored(rest, i - 1, score, category);
      ScoresCons(results[0], Rescored(rest, i - 1, score), category);
    }
  }

  /** What `d` more in the sum of `n` scores adds to their weighed mean. */
  function GainOf(w: real, d: real, n: nat): real {
    if n == 0 then 0.0 else w * (d / n as real)
  }

  lemma WeighedMeanGain(w: real, x: seq<real>, y: seq<real>, d: real)
    requires |x| == |y| > 0 && Sum(y) == Sum(x) + d
    ensures Weighed(w, y) == Weighed(w, x) + GainOf(w, d, |x|)
  {
    QuotientGain(Sum(x), d, |x| as real);
    Distribute(w, Mean(y), d / |x| as real);
  }

  lemma WeighedMeanSame(w: real, x: seq<real>, y: seq<real>)
    requires |x| == |y| > 0 && Sum(y) == Sum(x)
    ensures Weighed(w, y) == Weighed(w, x)
  {
  }

  lemma QuotientGain(x: real, d: real, n: real)
    requires n > 0.0
    ensures (x + d) / n == x / n + d / n
  {
  }

  lemma ShareElsewhere(c: Config, results: seq<TestResult>, i: nat, score: real, category: Category)
    requires i < |results| && results[i].category != category
    ensures Share(c, Rescored(results, i, score), category) == Share(c, results, category)
  {
    ScoresRescored(results, i, score, category);
    var x, y := ScoresOf(results, category), ScoresOf(Rescored(results, i, score), category);
    if x != [] {
      WeighedMeanSame(Weight(c, category), x, y);
    }
  }

  /** What a new score for test `i` adds to the weighted score. */
  function Gain(c: Config, results: seq<TestResult>, i: nat, score: real): real
    requires i < |results|
  {
    GainOf(Weight(c, results[i].category), score - results[i].score, |ScoresOf(results, results[i].category)|)
  }

  lemma ShareRescored(c: Config, results: seq<TestResult>, i: nat, score: real, category: Category)
    requires i < |results| && results[i].category == category
    ensures ScoresOf(results, category) != []
    ensures Share(c, Rescored(results, i, score), category) == Share(c, results, category) + Gain(c, results, i, score)
  {
    ScoresRescored(results, i, score, category);
    WeighedMeanGain(Weight(c, category), ScoresOf(results, category), ScoresOf(Rescored(results, i, score), category),
                    score - results[i].score);
  }

  lemma CategoryIndex(category: Category) returns (j: nat)
    ensures j < |CATEGORIES| && CATEGORIES[j] == category
    ensures forall k :: 0 <= k < |CATEGORIES| && k != j ==> CATEGORIES[k] != category
  {
    j := match category
      case CodeGeneration => 0
      case Reasoning => 1
      case Debugging => 2
      case Refactoring => 3;
  }

  lemma {:induction false} SumOneChanged(x: seq<real>, y: seq<real>, j: nat, d: real)
    requires |x| == |y| && j < |x| && y[j] == x[j] + d && forall i :: 0 <= i < |x| && i != j ==> x[i] == y[i]
    ensures Sum(y) == Sum(x) + d
  {
    if j > 0 {
      SumOneChanged(x[1..], y[1..], j - 1, d);
    } else {
      assert x[1..] == y[1..];
    }
  }

  /** A test's score counts with its category's weight divided by the number of tests of the category. */
  lemma ScoreGain(c: Config, results: seq<TestResult>, i: nat, score: real)
    requires i < |results|
    ensures ScoresOf(results, results[i].category) != []
    ensures WeightedScore(c, Rescored(results, i, score)) == WeightedScore(c, results) + Gain(c, results, i, score)
  {
    var j := CategoryIndex(results[i].category);
    var x, y := Shares(c, results, CATEGORIES), Shares(c, Rescored(results, i, score), CATEGORIES);
    ShareRescored(c, results, i, score, CATEGORIES[j]);
    forall k | 0 <= k < |x| && k != j ensures x[k] == y[k] {
      ShareElsewhere(c, results, i, score, CATEGORIES[k]);
    }
    SumOneChanged(x, y, j, Gain(c, results, i, score));
  }

  // ----- Higher weighted score, better tier -----

  predicate Ascending(tiers: seq<(int, real)>) {
    forall i, j :: 0 <= i < j < |tiers| ==> tiers[i].0 < tiers[j].0
  }

  /** Tier `i` has a tier up to 5 with a threshold that is no higher. */
  predicate Undercut(tiers: seq<(int, real)>, i: nat)
    requires i < |tiers|
  {
    exists j :: 0 <= j < |tiers| && tiers[j].0 <= 5 && tiers[j].1 <= tiers[i].1
  }

  /** No tier after 5 can be reached without a tier up to 5. */
  predicate FallbackIsWorst(tiers: seq<(int, real)>) {
    forall i: nat :: i < |tiers| && tiers[i].0 > 5 ==> Undercut(tiers, i)
  }

  lemma {:induction false} TierMeaning(tiers: seq<(int, real)>, score: real)
    requires Ascending(tiers)
    ensures (forall i :: 0 <= i < |tiers| ==> score < tiers[i].1) ==> Tier(tiers, score) == 5
    ensures forall i :: 0 <= i < |tiers| && score >= tiers[i].1 ==>
      && Tier(tiers, score) <= tiers[i].0
      && exists j :: 0 <= j < |tiers| && score >= tiers[j].1 && Tier(tiers, score) == tiers[j].0
  {
    if tiers != [] && score < tiers[0].1 {
      TierMeaning(tiers[1..], score);
    }
  }

  predicate Reaches(tiers: seq<(int, real)>, score: real, i: nat) {
    i < |tiers| && score >= tiers[i].1
  }

  lemma TierStep(tiers: seq<(int, real)>, s: real, t: real)
    requires Ascending(tiers) && FallbackIsWorst(tiers) && s <= t
    ensures Tier(tiers, t) <= Tier(tiers, s)
  {
    TierMeaning(tiers, s);
    TierMeaning(tiers, t);
    if i: nat :| Reaches(tiers, s, i) {
      var j :| 0 <= j < |tiers| && s >= tiers[j].1 && Tier(tiers, s) == tiers[j].0;
      assert t >= tiers[j].1;
    } else if i: nat :| Reaches(tiers, t, i) {
      assert forall k: nat :: k < |tiers| ==> !Reaches(tiers, s, k);
      if tiers[i].0 > 5 {
        assert Undercut(tiers, i);
        var j :| 0 <= j < |tiers| && tiers[j].0 <= 5 && tiers[j].1 <= tiers[i].1;
        assert t >= tiers[j].1;
      }
    } else {
      assert forall k: nat :: k < |tiers| ==> !Reaches(tiers, t, k);
      assert forall k: nat :: k < |tiers| ==> !Reaches(tiers, s, k);
    }
  }

  /** A tier after 5 that nothing undercuts is worse than the fallback of a lower score. */
  lemma WorseThanFallback(tiers: seq<(int, real)>, i: nat) returns (s: real, t: real)
    requires Ascending(tiers) && i < |tiers| && tiers[i].0 > 5 && !Undercut(tiers, i)
    ensures s <= t && Tier(tiers, s) < Tier(tiers, t)
  {
    t := tiers[i].1;
    s := Below(tiers, t);
    TierMeaning(tiers, s);
    TierMeaning(tiers, t);
    var j :| 0 <= j < |tiers| && t >= tiers[j].1 && Tier(tiers, t) == tiers[j].0;
    assert tiers[j].0 > 5;
  }

  /** A higher score never gives a worse tier, for all scores, exactly when the fallback tier 5 is the worst one
      reachable. */
  lemma TierAntitone(tiers: seq<(int, real)>)
    requires Ascending(tiers)
    ensures (forall s, t :: s <= t ==> Tier(tiers, t) <= Tier(tiers, s)) <==> FallbackIsWorst(tiers)
  {
    if FallbackIsWorst(tiers) {
      forall s: real, t: real | s <= t ensures Tier(tiers, t) <= Tier(tiers, s) {
        TierStep(tiers, s, t);
      }
    } else {
      var i: nat :| i < |tiers| && tiers[i].0 > 5 && !Undercut(tiers, i);
      var s, t := WorseThanFallback(tiers, i);
      assert !(Tier(tiers, t) <= Tier(tiers, s));
    }
  }

  lemma {:induction false} Below(tiers: seq<(int, real)>, t: real) returns (s: real)
    ensures s <= t && forall i :: 0 <= i < |tiers| ==> s < tiers[i].1
  {
    if tiers == [] {
      s := t;
    } else {
      s := Below(tiers[1..], t);
      if s >= tiers[0].1 {
        s := tiers[0].1 - 1.0;
      }
    }
  }

  /** End to end: raising one score, all else equal, never worsens the recommended tier. */
  lemma BetterScoreNoWorseTier(c: Config, results: seq<TestResult>, i: nat, score: real)
    requires i < |results| && results[i].score <= score
    requires WeightsNonNegative(c) && Ascending(c.tiers) && FallbackIsWorst(c.tiers)
    ensures var raised := results[i := results[i].(score := score)];
      && WeightedScore(c, results) <= WeightedScore(c, raised)
      && Tier(c.tiers, WeightedScore(c, raised)) <= Tier(c.tiers, WeightedScore(c, results))
  {
    var raised := results[i := results[i].(score := score)];
    WeightedScoreGrows(c, results, raised);
    TierStep(c.tiers, WeightedScore(c, results), WeightedScore(c, raised));
  }

  // ----- The range of the weighted score -----

  function Weights(c: Config, categories: seq<Category>): seq<real> {
    seq(|categories|, i requires 0 <= i < |categories| => Weight(c, categories[i]))
  }

  lemma {:induction false} SumBounds(x: seq<real>)
    requires forall i :: 0 <= i < |x| ==> 0.0 <= x[i] <= 100.0
    ensures 0.0 <= Sum(x) <= 100.0 * |x| as real
  {
    if x != [] {
      SumBounds(x[1..]);
    }
  }

  lemma {:induction false} ScoresInRange(results: seq<TestResult>, category: Category)
    requires forall i :: 0 <= i < |results| ==> 0.0 <= results[i].score <= 100.0
    ensures forall i :: 0 <= i < |ScoresOf(results, category)| ==> 0.0 <= ScoresOf(results, category)[i] <= 100.0
  {
    if results != [] {
      ScoresInRange(results[1..], category);
    }
  }

  lemma MeanInRange(scores: seq<real>)
    requires scores != [] && forall i :: 0 <= i < |scores| ==> 0.0 <= scores[i] <= 100.0
    ensures 0.0 <= Mean(scores) <= 100.0
  {
    SumBounds(scores);
    var n := |scores| as real;
    DivideMonotone(0.0, Sum(scores), n);
    DivideMonotone(Sum(scores), 100.0 * n, n);
  }

  lemma ShareInRange(c: Config, results: seq<TestResult>, category: Category)
    requires WeightsNonNegative(c) && forall i :: 0 <= i < |results| ==> 0.0 <= results[i].score <= 100.0
    ensures 0.0 <= Share(c, results, category) <= 100.0 * Weight(c, category)
  {
    var scores := ScoresOf(results, category);
    ScoresInRange(results, category);
    if scores != [] {
      MeanInRange(scores);
      ScaleMonotone(Weight(c, category), 0.0, Mean(scores));
      ScaleMonotone(Weight(c, category), Mean(scores), 100.0);
    }
  }

  lemma {:induction false} SumScaled(x: seq<real>, w: seq<real>)
    requires |x| == |w| && forall i :: 0 <= i < |x| ==> 0.0 <= x[i] <= 100.0 * w[i]
    ensures 0.0 <= Sum(x) <= 100.0 * Sum(w)
  {
    if x != [] {
      SumScaled(x[1..], w[1..]);
    }
  }

  /** Scores in [0, 100] and non-negative weights that sum to at most 1 keep the weighted score in [0, 100]. */
  lemma WeightedScoreInRange(c: Config, results: seq<TestResult>)
    requires WeightsNonNegative(c) && Sum(Weights(c, CATEGORIES)) <= 1.0
    requires forall i :: 0 <= i < |results| ==> 0.0 <= results[i].score <= 100.0
    ensures 0.0 <= WeightedScore(c, results) <= 100.0
  {
    forall i | 0 <= i < |CATEGORIES|
      ensures 0.0 <= Shares(c, results, CATEGORIES)[i] <= 100.0 * Weights(c, CATEGORIES)[i]
    {
      ShareInRange(c, results, CATEGORIES[i]);
    }
    SumScaled(Shares(c, results, CATEGORIES), Weights(c, CATEGORIES));
  }

  // ----- The shipped configuration -----

  const DEFAULT := Config(
    map[CodeGeneration := 0.35, Reasoning := 0.30, Debugging := 0.20, Refactoring := 0.15],
    [(2, 85.0), (3, 75.0), (4, 65.0)])

  lemma SumCons(x: real, rest: seq<real>)
    ensures Sum([x] + rest) == x + Sum(rest)
  {
    assert ([x] + rest)[1..] == rest;
  }

  lemma DefaultWeights()
    ensures WeightsNonNegative(DEFAULT) && Sum(Weights(DEFAULT, CATEGORIES)) == 1.0
  {
    assert Weights(DEFAULT, CATEGORIES) == [0.35] + ([0.30] + ([0.20] + [0.15]));
    SumOne(0.15);
    SumCons(0.20, [0.15]);
    SumCons(0.30, [0.20] + [0.15]);
    SumCons(0.35, [0.30] + ([0.20] + [0.15]));
  }

  lemma DefaultTier(score: real)
    ensures Tier(DEFAULT.tiers, score)
         == if score >= 85.0 then 2 else if score >= 75.0 then 3 else if score >= 65.0 then 4 else 5
  {
    assert DEFAULT.tiers == [(2, 85.0)] + ([(3, 75.0)] + ([(4, 65.0)] + []));
    TierCons((2, 85.0), [(3, 75.0)] + ([(4, 65.0)] + []), score);
    TierCons((3, 75.0), [(4, 65.0)] + [], score);
    TierCons((4, 65.0), [], score);
  }

  lemma TierCons(tier: (int, real), rest: seq<(int, real)>, score: real)
    ensures Tier([tier] + rest, score) == if score >= tier.1 then tier.0 else Tier(rest, score)
  {
    assert ([tier] + rest)[1..] == rest;
  }

  /** The shipped configuration meets every condition above; code generation counts most, and scores from 85, 75 and 65
      on give tiers 2, 3 and 4. */
  lemma DefaultConfiguration()
    ensures WeightsNonNegative(DEFAULT) && Sum(Weights(DEFAULT, CATEGORIES)) == 1.0
    ensures Ascending(DEFAULT.tiers) && FallbackIsWorst(DEFAULT.tiers)
    ensures Weights(DEFAULT, CATEGORIES) == [0.35, 0.30, 0.20, 0.15]
    ensures forall score ::
      Tier(DEFAULT.tiers, score)
      == if score >= 85.0 then 2 else if score >= 75.0 then 3 else if score >= 65.0 then 4 else 5
  {
    DefaultWeights();
    assert Weights(DEFAULT, CATEGORIES) == [0.35, 0.30, 0.20, 0.15];
    forall score: real
      ensures Tier(DEFAULT.tiers, score)
           == if score >= 85.0 then 2 else if score >= 75.0 then 3 else if score >= 65.0 then 4 else 5
    {
      DefaultTier(score);
    }
    assert forall i :: 0 <= i < |DEFAULT.tiers| ==> DEFAULT.tiers[i].0 == i + 2;
  }
}

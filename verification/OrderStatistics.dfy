/** Sorting, interpolated and nearest-rank percentiles, and how they depend on the samples. Floats are reals. */
module OrderStatistics {
  import opened Outcomes

  // ----- Sorting and counting -----

  predicate Sorted(s: seq<real>) {
    forall i, j :: 0 <= i < j < |s| ==> s[i] <= s[j]
  }

  function Insert(x: real, s: seq<real>): seq<real> {
    if s == [] || x <= s[0] then [x] + s else [s[0]] + Insert(x, s[1..])
  }

  /** `sorted(values)` */
  function Sort(values: seq<real>): seq<real> {
    if values == [] then [] else Insert(values[0], Sort(values[1..]))
  }

  /** How many samples are at most `v`. */
  function CountLe(s: seq<real>, v: real): nat {
    if s == [] then 0 else (if s[0] <= v then 1 else 0) + CountLe(s[1..], v)
  }

  lemma SortedCons(x: real, s: seq<real>)
    requires Sorted(s) && forall i :: 0 <= i < |s| ==> x <= s[i]
    ensures Sorted([x] + s)
  {
  }

  lemma {:induction false} InsertContents(x: real, s: seq<real>)
    ensures multiset(Insert(x, s)) == multiset(s) + multiset{x}
  {
    if s != [] && x > s[0] {
      InsertContents(x, s[1..]);
      assert s == [s[0]] + s[1..];
    }
  }

  lemma {:induction false} InsertSorts(x: real, s: seq<real>)
    requires Sorted(s)
    ensures Sorted(Insert(x, s))
  {
    if s == [] || x <= s[0] {
      SortedCons(x, s);
    } else {
      var rest := Insert(x, s[1..]);
      InsertSorts(x, s[1..]);
      InsertContents(x, s[1..]);
      forall i | 0 <= i < |rest| ensures s[0] <= rest[i] {
        assert rest[i] in multiset(rest);
        assert rest[i] == x || rest[i] in s[1..];
      }
      SortedCons(s[0], rest);
    }
  }

  lemma HeadMultiset<T>(s: seq<T>)
    requires s != []
    ensures multiset(s) == multiset(s[1..]) + multiset{s[0]}
  {
    assert s == [s[0]] + s[1..];
  }

  lemma {:induction false} SortSorts(values: seq<real>)
    ensures Sorted(Sort(values)) && multiset(Sort(values)) == multiset(values) && |Sort(values)| == |values|
  {
    if values != [] {
      var x, rest := values[0], values[1..];
      SortSorts(rest);
      InsertSorts(x, Sort(rest));
      InsertContents(x, Sort(rest));
      HeadMultiset(values);
      assert |multiset(Insert(x, Sort(rest)))| == |Insert(x, Sort(rest))|;
    }
  }

  lemma {:induction false} CountLeSplit(a: seq<real>, b: seq<real>, v: real)
    ensures CountLe(a + b, v) == CountLe(a, v) + CountLe(b, v)
  {
    if a == [] {
      assert a + b == b;
    } else {
      assert (a + b)[1..] == a[1..] + b;
      CountLeSplit(a[1..], b, v);
    }
  }

  /** Taking out the element at `i`. */
  function Without<T>(s: seq<T>, i: nat): seq<T>
    requires i < |s|
  {
    s[..i] + s[i + 1..]
  }

  lemma WithoutMultiset<T>(s: seq<T>, i: nat)
    requires i < |s|
    ensures multiset(s) == multiset(Without(s, i)) + multiset{s[i]}
  {
    assert s == s[..i] + [s[i]] + s[i + 1..];
  }

  /** Equal multisets: the head of one is somewhere in the other, and the remainders are equal multisets again. */
  lemma MatchHead<T>(a: seq<T>, b: seq<T>) returns (i: nat)
    requires a != [] && multiset(a) == multiset(b)
    ensures i < |b| && b[i] == a[0] && multiset(a[1..]) == multiset(Without(b, i))
  {
    HeadMultiset(a);
    assert a[0] in multiset(b);
    i :| i < |b| && b[i] == a[0];
    WithoutMultiset(b, i);
    assert multiset(a[1..]) == multiset(a) - multiset{a[0]};
    assert multiset(Without(b, i)) == multiset(b) - multiset{b[i]};
  }

  lemma {:induction false} CountLePermutation(a: seq<real>, b: seq<real>, v: real)
    requires multiset(a) == multiset(b)
    ensures CountLe(a, v) == CountLe(b, v)
  {
    if a == [] {
      assert |b| == |multiset(b)|;
    } else {
      var i := MatchHead(a, b);
      CountLePermutation(a[1..], Without(b, i), v);
      CountLeSplit(b[..i], b[i + 1..], v);
      CountLeSplit(b[..i], b[i..], v);
      assert b == b[..i] + b[i..] && b[i..][1..] == b[i + 1..];
    }
  }

  /** In a sorted list, the sample at `i` is at most `v` exactly when more than `i` samples are. */
  lemma {:induction false} CountLeRank(s: seq<real>, i: nat, v: real)
    requires Sorted(s) && i < |s|
    ensures s[i] <= v <==> CountLe(s, v) > i
  {
    if s[0] > v {
      NoneBelow(s, v);
    } else if i > 0 {
      CountLeRank(s[1..], i - 1, v);
    }
  }

  lemma {:induction false} NoneBelow(s: seq<real>, v: real)
    requires forall i :: 0 <= i < |s| ==> s[i] > v
    ensures CountLe(s, v) == 0
  {
    if s != [] {
      NoneBelow(s[1..], v);
    }
  }

  lemma {:induction false} CountLeDominates(x: seq<real>, y: seq<real>, v: real)
    requires |x| == |y| && forall i :: 0 <= i < |x| ==> x[i] <= y[i]
    ensures CountLe(y, v) <= CountLe(x, v)
  {
    if x != [] {
      CountLeDominates(x[1..], y[1..], v);
    }
  }

  /** If `x` has at least as many small samples as `y` at every level, its order statistics are at most those of `y`. */
  lemma SortFollowsCounts(x: seq<real>, y: seq<real>)
    requires |x| == |y| && forall v :: CountLe(y, v) <= CountLe(x, v)
    ensures |Sort(x)| == |Sort(y)| == |x| && forall i :: 0 <= i < |x| ==> Sort(x)[i] <= Sort(y)[i]
  {
    SortSorts(x);
    SortSorts(y);
    forall i | 0 <= i < |x| ensures Sort(x)[i] <= Sort(y)[i] {
      var v := Sort(y)[i];
      CountLeRank(Sort(y), i, v);
      CountLePermutation(Sort(y), y, v);
      CountLePermutation(Sort(x), x, v);
      assert CountLe(y, v) <= CountLe(x, v);
      CountLeRank(Sort(x), i, v);
    }
  }

  /** Pointwise larger samples, in any order of arrival, have pointwise larger order statistics. */
  lemma SortDominates(x: seq<real>, y: seq<real>)
    requires |x| == |y| && forall i :: 0 <= i < |x| ==> x[i] <= y[i]
    ensures |Sort(x)| == |Sort(y)| == |x| && forall i :: 0 <= i < |x| ==> Sort(x)[i] <= Sort(y)[i]
  {
    forall v ensures CountLe(y, v) <= CountLe(x, v) {
      CountLeDominates(x, y, v);
    }
    SortFollowsCounts(x, y);
  }

  lemma SortPermutation(a: seq<real>, b: seq<real>)
    requires multiset(a) == multiset(b)
    ensures Sort(a) == Sort(b)
  {
    assert |a| == |multiset(a)| && |b| == |multiset(b)|;
    forall v ensures CountLe(a, v) == CountLe(b, v) {
      CountLePermutation(a, b, v);
    }
    SortFollowsCounts(a, b);
    SortFollowsCounts(b, a);
  }

  // ----- Sums and means -----

  function Sum(values: seq<real>): real {
    if values == [] then 0.0 else values[0] + Sum(values[1..])
  }

  /** `statistics.mean` */
  function Mean(values: seq<real>): real
    requires values != []
  {
    Sum(values) / |values| as real
  }

  lemma {:induction false} SumSplit(a: seq<real>, b: seq<real>)
    ensures Sum(a + b) == Sum(a) + Sum(b)
  {
    if a == [] {
      assert a + b == b;
    } else {
      assert (a + b)[1..] == a[1..] + b;
      SumSplit(a[1..], b);
    }
  }

  lemma {:induction false} SumPermutation(a: seq<real>, b: seq<real>)
    requires multiset(a) == multiset(b)
    ensures Sum(a) == Sum(b)
  {
    if a == [] {
      assert |b| == |multiset(b)|;
    } else {
      var i := MatchHead(a, b);
      SumPermutation(a[1..], Without(b, i));
      SumSplit(b[..i], b[i + 1..]);
      SumSplit(b[..i], b[i..]);
      assert b == b[..i] + b[i..] && b[i..][1..] == b[i + 1..];
    }
  }

  // ----- The interpolated percentile -----

  lemma NonNegativeProduct(x: real, y: real)
    requires x >= 0.0 && y >= 0.0
    ensures x * y >= 0.0
  {
  }

  lemma Distribute(w: real, x: real, y: real)
    ensures w * (x - y) == w * x - w * y
  {
  }

  lemma ScaleMonotone(w: real, x: real, y: real)
    requires x <= y && w >= 0.0
    ensures w * x <= w * y
  {
    NonNegativeProduct(w, y - x);
    Distribute(w, y, x);
  }

  lemma DivideMonotone(x: real, y: real, n: real)
    requires x <= y && n > 0.0
    ensures x / n <= y / n
  {
    ScaleMonotone(1.0 / n, x, y);
    assert x / n == 1.0 / n * x && y / n == 1.0 / n * y;
  }

  /** The value a fraction `w` of the way from `a` to `b`. */
  function Mix(a: real, b: real, w: real): real {
    a + w * (b - a)
  }

  lemma MixMonotone(a: real, b: real, a': real, b': real, w: real)
    requires a <= a' && b <= b' && 0.0 <= w <= 1.0
    ensures Mix(a, b, w) <= Mix(a', b', w)
  {
    NonNegativeProduct(w, b' - b);
    NonNegativeProduct(1.0 - w, a' - a);
    assert Mix(a', b', w) - Mix(a, b, w) == (1.0 - w) * (a' - a) + w * (b' - b);
  }

  lemma MixInWeight(a: real, b: real, w: real, w': real)
    requires a <= b && w <= w'
    ensures Mix(a, b, w) <= Mix(a, b, w')
  {
    ScaleMonotone(b - a, w, w');
    assert w * (b - a) == (b - a) * w && w' * (b - a) == (b - a) * w';
  }

  /** The value at a real-valued rank of a sorted list, interpolated between neighbours. */
  function AtRank(s: seq<real>, k: real): real
    requires 0.0 <= k <= (|s| - 1) as real
  {
    var f := k.Floor;
    var c := if f + 1 < |s| then f + 1 else f;
    Mix(s[f], s[c], k - f as real)
  }

  function Rank(n: nat, p: real): (k: real)
    requires n > 0 && 0.0 <= p <= 100.0
    ensures 0.0 <= k <= (n - 1) as real
  {
    var m := (n - 1) as real;
    NonNegativeProduct(m, p);
    ScaleMonotone(m, p, 100.0);
    m * p / 100.0
  }

  /** The nested function `percentile` on the sorted samples. */
  function Percentile(values: seq<real>, p: real): real
    requires values != [] && 0.0 <= p <= 100.0
  {
    SortSorts(values);
    var s := Sort(values);
    if |s| == 1 then s[0] else AtRank(s, Rank(|s|, p))
  }

  lemma PercentileIsAtRank(values: seq<real>, p: real)
    requires values != [] && 0.0 <= p <= 100.0
    ensures |Sort(values)| == |values| && Percentile(values, p) == AtRank(Sort(values), Rank(|values|, p))
  {
    SortSorts(values);
  }

  lemma AtRankBetween(s: seq<real>, k: real)
    requires Sorted(s) && 0.0 <= k <= (|s| - 1) as real
    ensures var f := k.Floor; s[f] <= AtRank(s, k) <= s[if f + 1 < |s| then f + 1 else f]
  {
    var f := k.Floor;
    var c := if f + 1 < |s| then f + 1 else f;
    var w := k - f as real;
    MixMonotone(s[f], s[f], s[f], s[c], w);
    MixMonotone(s[f], s[c], s[c], s[c], w);
    assert Mix(s[f], s[f], w) == s[f] && Mix(s[c], s[c], w) == s[c];
  }

  lemma AtRankMonotone(s: seq<real>, k: real, k': real)
    requires Sorted(s) && 0.0 <= k <= k' <= (|s| - 1) as real
    ensures AtRank(s, k) <= AtRank(s, k')
  {
    var f, f' := k.Floor, k'.Floor;
    if f == f' {
      var c := if f + 1 < |s| then f + 1 else f;
      MixInWeight(s[f], s[c], k - f as real, k' - f as real);
    } else {
      AtRankBetween(s, k);
      AtRankBetween(s, k');
    }
  }

  lemma RankMonotone(n: nat, p: real, q: real)
    requires n > 0 && 0.0 <= p <= q <= 100.0
    ensures Rank(n, p) <= Rank(n, q)
  {
    ScaleMonotone((n - 1) as real, p, q);
  }

  lemma AtRankDominates(s: seq<real>, t: seq<real>, k: real)
    requires |s| == |t| && 0.0 <= k <= (|s| - 1) as real && forall i :: 0 <= i < |s| ==> s[i] <= t[i]
    ensures AtRank(s, k) <= AtRank(t, k)
  {
    var f := k.Floor;
    var c := if f + 1 < |s| then f + 1 else f;
    MixMonotone(s[f], s[c], t[f], t[c], k - f as real);
  }

  /** Slower samples never have a smaller percentile, whatever order the samples arrived in. */
  lemma PercentileDominates(x: seq<real>, y: seq<real>, p: real)
    requires x != [] && 0.0 <= p <= 100.0
    requires |x| == |y| && forall i :: 0 <= i < |x| ==> x[i] <= y[i]
    ensures Percentile(x, p) <= Percentile(y, p)
  {
    SortDominates(x, y);
    PercentileIsAtRank(x, p);
    PercentileIsAtRank(y, p);
    AtRankDominates(Sort(x), Sort(y), Rank(|x|, p));
  }

  /** A higher percentile is never smaller; all lie between the least and the greatest sample. */
  lemma PercentileMonotone(values: seq<real>, p: real, q: real)
    requires values != [] && 0.0 <= p <= q <= 100.0
    ensures Percentile(values, p) <= Percentile(values, q)
    ensures Min(values) <= Percentile(values, p) <= Max(values)
  {
    SortSorts(values);
    PercentileIsAtRank(values, p);
    PercentileIsAtRank(values, q);
    RankMonotone(|values|, p, q);
    AtRankMonotone(Sort(values), Rank(|values|, p), Rank(|values|, q));
    AtRankBetween(Sort(values), Rank(|values|, p));
    MinMaxSorted(values);
  }

  function Min(values: seq<real>): real
    requires values != []
  {
    if |values| == 1 then values[0]
    else var rest := Min(values[1..]); if rest < values[0] then rest else values[0]
  }

  function Max(values: seq<real>): real
    requires values != []
  {
    if |values| == 1 then values[0]
    else var rest := Max(values[1..]); if values[0] < rest then rest else values[0]
  }

  lemma {:induction false} MinMaxBound(values: seq<real>)
    requires values != []
    ensures Min(values) in values && Max(values) in values
    ensures forall x <- values :: Min(values) <= x <= Max(values)
  {
    if |values| > 1 {
      MinMaxBound(values[1..]);
      assert values == [values[0]] + values[1..];
    }
  }

  lemma MinMaxSorted(values: seq<real>)
    requires values != []
    ensures |Sort(values)| == |values|
    ensures Min(values) == Sort(values)[0] && Max(values) == Sort(values)[|values| - 1]
  {
    SortSorts(values);
    MinMaxBound(values);
    var s := Sort(values);
    SameMembers(s, values, Min(values));
    SameMembers(s, values, Max(values));
    SortedEnds(s, Min(values));
    SortedEnds(s, Max(values));
    SameMembers(values, s, s[0]);
    SameMembers(values, s, s[|s| - 1]);
  }

  lemma SameMembers(x: seq<real>, y: seq<real>, value: real)
    requires multiset(x) == multiset(y) && value in y
    ensures value in x
  {
    assert value in multiset(y);
    assert value in multiset(x);
  }

  lemma SortedEnds(s: seq<real>, x: real)
    requires Sorted(s) && x in s
    ensures s[0] <= x <= s[|s| - 1]
  {
    var i :| 0 <= i < |s| && s[i] == x;
    assert i == 0 || s[0] <= s[i];
    assert i == |s| - 1 || s[i] <= s[|s| - 1];
  }

  lemma {:induction false} SumDominates(x: seq<real>, y: seq<real>)
    requires |x| == |y| && forall i :: 0 <= i < |x| ==> x[i] <= y[i]
    ensures Sum(x) <= Sum(y)
  {
    if x != [] {
      SumDominates(x[1..], y[1..]);
    }
  }

  /** The extreme percentiles are the extreme samples. */
  lemma PercentileEnds(values: seq<real>)
    requires values != []
    ensures Percentile(values, 0.0) == Min(values) && Percentile(values, 100.0) == Max(values)
  {
    PercentileIsAtRank(values, 0.0);
    PercentileIsAtRank(values, 100.0);
    MinMaxSorted(values);
    var n := |values|;
    assert Rank(n, 0.0) == 0.0 && Rank(n, 100.0) == (n - 1) as real;
    assert ((n - 1) as real).Floor == n - 1;
  }

  /** Between two neighbours in order the percentile lies where its rank lies between theirs. */
  lemma PercentileInterpolates(values: seq<real>, p: real, f: nat, t: real)
    requires values != [] && 0.0 <= p <= 100.0 && 0.0 <= t <= 1.0 && f + 1 < |values|
    requires (|values| - 1) as real * p / 100.0 == f as real + t
    ensures |Sort(values)| == |values|
    ensures Percentile(values, p) == (1.0 - t) * Sort(values)[f] + t * Sort(values)[f + 1]
  {
    PercentileIsAtRank(values, p);
    var s, k := Sort(values), Rank(|values|, p);
    assert k == f as real + t;
    if t < 1.0 {
      assert k.Floor == f;
      MixWeights(s[f], s[f + 1], t);
    } else {
      assert k.Floor == f + 1 && k - (f + 1) as real == 0.0;
      MixWeights(s[f + 1], s[if f + 2 < |s| then f + 2 else f + 1], 0.0);
    }
  }

  lemma MixWeights(a: real, b: real, t: real)
    ensures Mix(a, b, t) == (1.0 - t) * a + t * b
  {
    Distribute(t, b, a);
    assert (1.0 - t) * a == a - t * a;
  }

  function Line(a: real, d: real, x: real): real {
    a + d * x
  }

  lemma LineMonotone(a: real, d: real, x: real, y: real)
    requires d >= 0.0 && x <= y
    ensures Line(a, d, x) <= Line(a, d, y)
  {
    ScaleMonotone(d, x, y);
  }

  /** `a`, `a + d`, `a + 2 * d`, ... */
  function Progression(a: real, d: real, n: nat): seq<real> {
    seq(n, i requires 0 <= i < n => Line(a, d, i as real))
  }

  lemma ProgressionSorted(a: real, d: real, n: nat)
    requires d >= 0.0
    ensures Sorted(Progression(a, d, n))
  {
    var s := Progression(a, d, n);
    forall i, j | 0 <= i < j < |s| ensures s[i] <= s[j] {
      LineMonotone(a, d, i as real, j as real);
    }
  }

  lemma {:induction false} SortSorted(s: seq<real>)
    requires Sorted(s)
    ensures Sort(s) == s
  {
    if s != [] {
      SortSorted(s[1..]);
      assert s == [s[0]] + s[1..];
    }
  }

  lemma LineMix(a: real, d: real, f: real, t: real)
    ensures Mix(Line(a, d, f), Line(a, d, f + 1.0), t) == Line(a, d, f + t)
  {
    assert d * (f + 1.0) == d * f + d && d * (f + t) == d * f + t * d;
    assert Line(a, d, f + 1.0) - Line(a, d, f) == d;
  }

  lemma ProgressionAtRank(a: real, d: real, n: nat, k: real)
    requires 0.0 <= k <= (n - 1) as real
    ensures AtRank(Progression(a, d, n), k) == Line(a, d, k)
  {
    var f := k.Floor;
    if f + 1 < n {
      LineMix(a, d, f as real, k - f as real);
    } else {
      assert k == f as real;
      MixWeights(Line(a, d, k), Line(a, d, k), 0.0);
    }
  }

  /** The samples in order decide the percentile. */
  lemma PercentileInOrder(values: seq<real>, s: seq<real>, p: real)
    requires values != [] && 0.0 <= p <= 100.0 && Sorted(s) && multiset(values) == multiset(s)
    ensures |s| == |values| && Percentile(values, p) == AtRank(s, Rank(|s|, p))
  {
    assert |s| == |multiset(s)| == |multiset(values)| == |values|;
    SortPermutation(values, s);
    SortSorted(s);
    PercentileIsAtRank(values, p);
  }

  lemma ProgressionOnLine(values: seq<real>, a: real, d: real, p: real)
    requires values != [] && d >= 0.0 && 0.0 <= p <= 100.0
    requires multiset(values) == multiset(Progression(a, d, |values|))
    ensures Percentile(values, p) == Line(a, d, Rank(|values|, p))
  {
    ProgressionSorted(a, d, |values|);
    PercentileInOrder(values, Progression(a, d, |values|), p);
    ProgressionAtRank(a, d, |values|, Rank(|values|, p));
  }

  lemma RankIs(n: nat, p: real, k: real)
    requires n > 0 && 0.0 <= p <= 100.0 && k * 100.0 == (n - 1) as real * p
    ensures Rank(n, p) == k
  {
  }

  /** Evenly spaced samples, in any order: every percentile is on the line through them. */
  lemma ProgressionPercentile(values: seq<real>, a: real, d: real, p: real, k: real)
    requires values != [] && d >= 0.0 && 0.0 <= p <= 100.0 && k * 100.0 == (|values| - 1) as real * p
    requires multiset(values) == multiset(Progression(a, d, |values|))
    ensures Percentile(values, p) == a + d * k
  {
    ProgressionOnLine(values, a, d, p);
    RankIs(|values|, p, k);
  }

  /** `statistics.median` */
  function Median(values: seq<real>): real
    requires values != []
  {
    SortSorts(values);
    var s, n := Sort(values), |values|;
    if n % 2 == 1 then s[n / 2] else (s[n / 2 - 1] + s[n / 2]) / 2.0
  }

  lemma RankAtHalf(n: nat)
    requires n > 0
    ensures Rank(n, 50.0) == (n - 1) as real / 2.0
    ensures Rank(n, 50.0).Floor == (n - 1) / 2
  {
    assert Rank(n, 50.0) == (n - 1) as real / 2.0;
    assert (n - 1) / 2 * 2 <= n - 1 <= (n - 1) / 2 * 2 + 1;
  }

  lemma MiddleOfSorted(s: seq<real>)
    requires s != []
    ensures AtRank(s, Rank(|s|, 50.0))
         == if |s| % 2 == 1 then s[|s| / 2] else (s[|s| / 2 - 1] + s[|s| / 2]) / 2.0
  {
    RankAtHalf(|s|);
    var k, m := Rank(|s|, 50.0), |s| / 2;
    if |s| % 2 == 1 {
      assert k == m as real && k.Floor == m;
    } else {
      assert k.Floor == m - 1 && k - (m - 1) as real == 0.5;
      assert AtRank(s, k) == s[m - 1] + 0.5 * (s[m] - s[m - 1]);
    }
  }

  /** The 50th percentile is the median, for odd and even sample counts. */
  lemma MedianIsP50(values: seq<real>)
    requires values != []
    ensures Percentile(values, 50.0) == Median(values)
  {
    PercentileIsAtRank(values, 50.0);
    MiddleOfSorted(Sort(values));
  }

  // ----- The nearest-rank percentile -----

  /** Python's `round`: to the nearest integer, ties to the even one. */
  function RoundHalfEven(x: real): int {
    var f := x.Floor;
    if x - f as real < 0.5 || (x - f as real == 0.5 && f % 2 == 0) then f else f + 1
  }

  /** The nearest integer, and the even one of two equally near: this determines the result. */
  lemma RoundMeaning(x: real, n: int)
    ensures n == RoundHalfEven(x)
       <==> n as real - 0.5 < x < n as real + 0.5 || ((x == n as real - 0.5 || x == n as real + 0.5) && n % 2 == 0)
  {
  }

  lemma RoundMonotone(x: real, y: real)
    requires x <= y
    ensures RoundHalfEven(x) <= RoundHalfEven(y)
    ensures x - 0.5 <= RoundHalfEven(x) as real <= x + 0.5
  {
  }

  /** `round(x, 1)` */
  function RoundTenth(x: real): real {
    RoundHalfEven(x * 10.0) as real / 10.0
  }

  lemma TenthMonotone(x: real, y: real)
    requires x <= y
    ensures RoundTenth(x) <= RoundTenth(y)
  {
    RoundMonotone(x * 10.0, y * 10.0);
  }

  /** `pct / 100 * n` */
  function Position(n: nat, pct: real): real {
    pct / 100.0 * n as real
  }

  /** `min(n - 1, max(0, k))` */
  function Clamp(k: int, n: nat): (i: nat)
    requires n > 0
    ensures i < n
  {
    var atLeastZero := if k < 0 then 0 else k;
    if atLeastZero < n - 1 then atLeastZero else n - 1
  }

  function NearestIndex(n: nat, pct: real): (i: nat)
    requires n > 0
    ensures i < n
  {
    Clamp(RoundHalfEven(Position(n, pct)) - 1, n)
  }

  /** `_percentile` before its output is rounded. */
  function NearestRank(values: seq<real>, pct: real): Option<real> {
    if values == [] then None
    else
      SortSorts(values);
      var s := Sort(values);
      Some(if |s| == 1 then s[0] else s[NearestIndex(|s|, pct)])
  }

  function RoundedPercentile(values: seq<real>, pct: real): Option<real> {
    match NearestRank(values, pct)
    case None => None
    case Some(x) => Some(RoundTenth(x))
  }

  lemma PositionMonotone(n: nat, pct: real, pct': real)
    requires pct <= pct'
    ensures Position(n, pct) <= Position(n, pct')
  {
    var d := (pct' - pct) / 100.0;
    NonNegativeProduct(d, n as real);
    assert Position(n, pct') - Position(n, pct) == d * n as real;
  }

  lemma NearestIndexMonotone(n: nat, pct: real, pct': real)
    requires n > 0 && pct <= pct'
    ensures NearestIndex(n, pct) <= NearestIndex(n, pct')
  {
    PositionMonotone(n, pct, pct');
    RoundMonotone(Position(n, pct), Position(n, pct'));
  }

  /** The nearest-rank percentile is one of the samples; it is monotone in the percentage, also after rounding. */
  lemma NearestRankIsSample(values: seq<real>, pct: real, pct': real)
    requires values != [] && pct <= pct'
    ensures NearestRank(values, pct).Some? && NearestRank(values, pct).value in values
    ensures NearestRank(values, pct).value <= NearestRank(values, pct').value
    ensures RoundedPercentile(values, pct).value <= RoundedPercentile(values, pct').value
  {
    SortSorts(values);
    var s, i, j := Sort(values), NearestIndex(|values|, pct), NearestIndex(|values|, pct');
    NearestIndexMonotone(|values|, pct, pct');
    SameMembers(values, s, s[i]);
    assert s[i] <= s[j];
    TenthMonotone(s[i], s[j]);
  }

  /** The nearest rank: the sample whose place in order, counted from 1, is nearest to `pct / 100 * n`, the even one of
      two equally near; before the first place it is the first, after the last the last. */
  lemma NearestRankAt(values: seq<real>, pct: real, k: int, i: nat)
    requires i < |values| && (i == k - 1 || (k <= 0 && i == 0) || (k > |values| && i == |values| - 1))
    requires var x := pct / 100.0 * |values| as real;
      || k as real - 0.5 < x < k as real + 0.5
      || ((x == k as real - 0.5 || x == k as real + 0.5) && k % 2 == 0)
    ensures |Sort(values)| == |values|
    ensures NearestRank(values, pct) == Some(Sort(values)[i])
  {
    SortSorts(values);
    RoundMeaning(pct / 100.0 * |values| as real, k);
  }

  /** The reported value is the sample rounded to a tenth, half to even. */
  lemma RoundedPercentileAt(values: seq<real>, pct: real, k: int)
    requires values != []
    requires var x := NearestRank(values, pct).value * 10.0;
      || k as real - 0.5 < x < k as real + 0.5
      || ((x == k as real - 0.5 || x == k as real + 0.5) && k % 2 == 0)
    ensures RoundedPercentile(values, pct) == Some(k as real / 10.0)
  {
    RoundMeaning(NearestRank(values, pct).value * 10.0, k);
  }

  /** Dominance survives nearest-rank selection and output rounding. */
  lemma NearestRankDominates(x: seq<real>, y: seq<real>, pct: real)
    requires x != [] && |x| == |y| && forall i :: 0 <= i < |x| ==> x[i] <= y[i]
    ensures NearestRank(x, pct).value <= NearestRank(y, pct).value
    ensures RoundedPercentile(x, pct).value <= RoundedPercentile(y, pct).value
  {
    SortDominates(x, y);
    TenthMonotone(NearestRank(x, pct).value, NearestRank(y, pct).value);
  }

  /** At 50 percent the nearest rank lies at most one below the interpolated rank and never above it. */
  lemma NearestIndexAtHalf(n: nat)
    requires n > 0
    ensures Rank(n, 50.0) - 1.0 <= NearestIndex(n, 50.0) as real <= Rank(n, 50.0)
  {
    var half := Position(n, 50.0);
    assert half == n as real / 2.0;
    assert Rank(n, 50.0) == (n - 1) as real / 2.0;
    if n % 2 == 0 {
      assert half.Floor == n / 2;
    } else {
      assert half.Floor == n / 2 && half - (n / 2) as real == 0.5;
    }
  }

  /** So the nearest-rank median never exceeds the interpolated one of the same samples. */
  lemma NearestBelowInterpolated(values: seq<real>)
    requires values != []
    ensures NearestRank(values, 50.0).value <= Percentile(values, 50.0)
  {
    SortSorts(values);
    var s, n := Sort(values), |values|;
    NearestIndexAtHalf(n);
    PercentileIsAtRank(values, 50.0);
    var i := NearestIndex(n, 50.0);
    AtRankMonotone(s, i as real, Rank(n, 50.0));
    AtRankBetween(s, i as real);
  }
}

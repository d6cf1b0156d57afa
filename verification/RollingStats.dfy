/** Mean and spread of the latest observations, from two running sums.

    Arithmetic is exact. A standard deviation is carried as its square, and a
    z-score as the deviation it divides and the variance it divides by. */
module Rolling {
  import opened Events
  import opened Arithmetic

  /** (x - mean) / sqrt(variance) for a positive variance, 0 for a zero one. */
  datatype ZScore = NotAScore | Score(deviation: real, variance: real) {
    /** The absolute score is at least a threshold. */
    predicate AtLeast(threshold: real) {
      match this
      case NotAScore => false
      case Score(d, v) => threshold <= 0.0 || (v > 0.0 && d * d >= threshold * threshold * v)
    }
  }

  /** The unclamped sample variance. */
  function RawVariance(n: int, sum: real, sumSq: real): real
    requires n >= 2
  {
    (sumSq - (sum * sum) / n as real) / (n - 1) as real
  }

  datatype RollingStats = RollingStats(capacity: nat, values: seq<real>, sum: real, sumSq: real) {

    /** Takes in a finite observation, making room at the old end of a full window;
        anything else leaves it alone. */
    function Add(x: Double): RollingStats
      requires capacity > 1
    {
      if !x.Finite? then this
      else if |values| < capacity then
        this.(values := values + [x.value], sum := sum + x.value, sumSq := sumSq + x.value * x.value)
      else
        var evicted := values[0];
        this.(values := values[1..] + [x.value],
              sum := sum - evicted + x.value,
              sumSq := sumSq - evicted * evicted + x.value * x.value)
    }

    function Mean(): Double {
      if |values| == 0 then NotANumber else Finite(sum / |values| as real)
    }

    /** Square of the sample standard deviation, clamped at zero. */
    function Variance(): Double {
      if |values| < 2 then NotANumber
      else Finite(if RawVariance(|values|, sum, sumSq) <= 0.0 then 0.0 else RawVariance(|values|, sum, sumSq))
    }

    function Zscore(x: real): ZScore {
      if Variance().NotANumber? then NotAScore
      else if Variance().value == 0.0 then Score(0.0, 0.0)
      else Score(x - Mean().value, Variance().value)
    }

    predicate IsWarm(minObservations: int) { |values| >= minObservations }

    /** The sums are what recomputing them from the window would give. */
    ghost predicate Consistent() {
      capacity > 1 && |values| <= capacity && sum == Sum(values) && sumSq == SumSq(values)
    }
  }

  /** What the constructor accepts: a capacity of at least two. */
  type Baseline = s: RollingStats | s.capacity > 1 witness RollingStats(2, [], 0.0, 0.0)

  function EmptyStats(capacity: nat): (s: RollingStats)
    requires capacity > 1
    ensures s.Consistent()
  {
    RollingStats(capacity, [], 0.0, 0.0)
  }

  function Sum(xs: seq<real>): real {
    if xs == [] then 0.0 else Sum(xs[..|xs| - 1]) + xs[|xs| - 1]
  }

  function SumSq(xs: seq<real>): real {
    if xs == [] then 0.0 else SumSq(xs[..|xs| - 1]) + xs[|xs| - 1] * xs[|xs| - 1]
  }

  // ---- Runs ----

  /** The finite observations of an input. */
  function Finites(inputs: seq<Double>): seq<real> {
    if inputs == [] then []
    else
      var n := |inputs| - 1;
      Finites(inputs[..n]) + if inputs[n].Finite? then [inputs[n].value] else []
  }

  function AddAll(capacity: nat, inputs: seq<Double>): (s: RollingStats)
    requires capacity > 1
    ensures s.capacity == capacity
  {
    if inputs == [] then EmptyStats(capacity)
    else AddAll(capacity, inputs[..|inputs| - 1]).Add(inputs[|inputs| - 1])
  }

  function LastN(xs: seq<real>, n: nat): seq<real> {
    if |xs| <= n then xs else xs[|xs| - n..]
  }

  lemma {:induction false} SumFront(xs: seq<real>)
    requires xs != []
    ensures Sum(xs) == xs[0] + Sum(xs[1..])
    ensures SumSq(xs) == xs[0] * xs[0] + SumSq(xs[1..])
  {
    if |xs| > 1 {
      var n := |xs| - 1;
      SumFront(xs[..n]);
      assert xs[..n][1..] == xs[1..][..n - 1];
    } else {
      assert xs[..0] == [];
    }
  }

  lemma SumAppend(xs: seq<real>, x: real)
    ensures Sum(xs + [x]) == Sum(xs) + x && SumSq(xs + [x]) == SumSq(xs) + x * x
  {
    assert (xs + [x])[..|xs|] == xs;
  }

  lemma AddKeepsSums(s: RollingStats, x: Double)
    requires s.Consistent()
    ensures s.Add(x).Consistent()
  {
    hide Sum, SumSq;
    if x.Finite? {
      if |s.values| < s.capacity {
        SumAppend(s.values, x.value);
      } else {
        SumFront(s.values);
        SumAppend(s.values[1..], x.value);
      }
    }
  }

  lemma AddShiftsWindow(s: RollingStats, x: Double, fed: seq<real>)
    requires s.capacity > 1 && s.values == LastN(fed, s.capacity)
    ensures s.Add(x).values == LastN(if x.Finite? then fed + [x.value] else fed, s.capacity)
  {
  }

  /** After any run of adds the window is the last `capacity` finite inputs, and the
      incremental sums are the recomputed ones. */
  lemma {:induction false} WindowIsLastFinites(capacity: nat, inputs: seq<Double>)
    requires capacity > 1
    ensures AddAll(capacity, inputs).values == LastN(Finites(inputs), capacity)
    ensures AddAll(capacity, inputs).Consistent()
  {
    if inputs != [] {
      hide LastN, Sum, SumSq;
      var init, x := inputs[..|inputs| - 1], inputs[|inputs| - 1];
      WindowIsLastFinites(capacity, init);
      AddKeepsSums(AddAll(capacity, init), x);
      AddShiftsWindow(AddAll(capacity, init), x, Finites(init));
      assert Finites(inputs) == if x.Finite? then Finites(init) + [x.value] else Finites(init);
    }
  }

  // ---- Cauchy-Schwarz, exactly ----

  function Times(a: real, b: real): real { a * b }

  function Squared(d: real): real { Times(d, d) }

  /** Sum of squared distances to x. */
  function Spread(xs: seq<real>, x: real): real {
    if xs == [] then 0.0
    else
      Spread(xs[..|xs| - 1], x) + Squared(xs[|xs| - 1] - x)
  }

  ghost predicate Constant(xs: seq<real>) {
    forall i, j :: 0 <= i < |xs| && 0 <= j < |xs| ==> xs[i] == xs[j]
  }

  lemma TimesSign(a: real, b: real)
    ensures a > 0.0 && b > 0.0 ==> Times(a, b) > 0.0
    ensures Times(0.0, 0.0) == 0.0
    ensures Times(-a, -b) == Times(a, b)
  {
    if a > 0.0 && b > 0.0 {
      assert a * b > 0.0;
    }
  }

  lemma SquaredSign(d: real)
    ensures if d == 0.0 then Squared(d) == 0.0 else Squared(d) > 0.0
  {
    hide Times;
    TimesSign(d, d);
    TimesSign(-d, -d);
  }

  function Expanded(q: real, s: real, n: real, x: real): real {
    q - 2.0 * x * s + n * x * x
  }

  lemma ExpandedStep(q: real, s: real, n: real, x: real, y: real, q': real, s': real, n': real)
    requires q' == q + y * y && s' == s + y && n' == n + 1.0
    ensures Expanded(q', s', n', x) == Expanded(q, s, n, x) + Squared(y - x)
  {
  }

  lemma SumsUnfold(xs: seq<real>, x: real)
    requires xs != []
    ensures var n := |xs| - 1;
            && |xs| as real == n as real + 1.0
            && Sum(xs) == Sum(xs[..n]) + xs[n]
            && SumSq(xs) == SumSq(xs[..n]) + xs[n] * xs[n]
            && Spread(xs, x) == Spread(xs[..n], x) + Squared(xs[n] - x)
  {
    hide Squared;
  }

  lemma SpreadOfNothing(x: real)
    ensures Spread([], x) == Expanded(SumSq([]), Sum([]), 0 as real, x)
  {
  }

  lemma {:induction false} SpreadExpands(xs: seq<real>, x: real)
    ensures Spread(xs, x) == Expanded(SumSq(xs), Sum(xs), |xs| as real, x)
  {
    hide *;
    if xs == [] {
      SpreadOfNothing(x);
    } else {
      var n := |xs| - 1;
      SumsUnfold(xs, x);
      SpreadExpands(xs[..n], x);
      ExpandedStep(SumSq(xs[..n]), Sum(xs[..n]), n as real, x, xs[n], SumSq(xs), Sum(xs), |xs| as real);
    }
  }

  ghost predicate AllAre(xs: seq<real>, x: real) {
    forall i :: 0 <= i < |xs| ==> xs[i] == x
  }

  lemma {:induction false} SpreadSign(xs: seq<real>, x: real)
    ensures if AllAre(xs, x) then Spread(xs, x) == 0.0 else Spread(xs, x) > 0.0
  {
    if xs != [] {
      hide Squared;
      var n := |xs| - 1;
      SpreadSign(xs[..n], x);
      SquaredSign(xs[n] - x);
      assert AllAre(xs, x) <==> AllAre(xs[..n], x) && xs[n] == x by {
        assert forall i :: 0 <= i < n ==> xs[i] == xs[..n][i];
      }
    }
  }

  function Scatter(n: int, sum: real, sumSq: real): real {
    n as real * sumSq - sum * sum
  }

  /** The scatter of what is left when one value is taken out. */
  function ScatterWithout(n: int, sum: real, sumSq: real, v: real): real {
    Scatter(n - 1, sum - v, sumSq - v * v)
  }

  function ScatterOf(xs: seq<real>): real { Scatter(|xs|, Sum(xs), SumSq(xs)) }

  lemma ScatterAppend(xs: seq<real>, x: real)
    ensures ScatterOf(xs + [x]) == ScatterOf(xs) + Spread(xs, x)
  {
    hide Scatter, Expanded;
    SumAppend(xs, x);
    SpreadExpands(xs, x);
    ScatterStep(|xs|, Sum(xs), SumSq(xs), x);
  }

  lemma ConstantAppend(xs: seq<real>, x: real)
    ensures Constant(xs + [x]) <==> AllAre(xs, x)
    ensures Constant(xs + [x]) ==> Constant(xs)
  {
    var ys := xs + [x];
    assert ys[|xs|] == x;
    assert forall i :: 0 <= i < |xs| ==> ys[i] == xs[i];
  }

  /** n * sumSq >= sum^2, with equality exactly for a constant window. */
  lemma {:induction false} ScatterNonNegative(xs: seq<real>)
    ensures ScatterOf(xs) >= 0.0
    ensures ScatterOf(xs) == 0.0 <==> Constant(xs)
  {
    if xs != [] {
      hide ScatterOf, Spread, Constant, AllAre;
      var init, x := xs[..|xs| - 1], xs[|xs| - 1];
      assert xs == init + [x];
      ScatterNonNegative(init);
      SpreadSign(init, x);
      ScatterAppend(init, x);
      ConstantAppend(init, x);
    }
  }

  lemma ScatterStep(n: int, s: real, q: real, x: real)
    ensures Scatter(n + 1, s + x, q + x * x) == Scatter(n, s, q) + Expanded(q, s, n as real, x)
  {
    var k := n as real;
    assert (n + 1) as real == k + 1.0;
    assert (k + 1.0) * (q + x * x) == k * q + k * (x * x) + q + x * x;
    assert (s + x) * (s + x) == s * s + 2.0 * x * s + x * x;
    assert k * x * x == k * (x * x);
  }

  lemma VarianceIsScatter(n: int, sum: real, sumSq: real)
    requires n >= 2
    ensures (n as real * (n - 1) as real) * RawVariance(n, sum, sumSq) == Scatter(n, sum, sumSq)
  {
    var k, m, v := n as real, (n - 1) as real, RawVariance(n, sum, sumSq);
    var e := (sum * sum) / k;
    assert k * e == sum * sum;
    assert m * v == sumSq - e;
    Assoc(k, m, v);
    assert k * (sumSq - e) == k * sumSq - k * e;
  }

  lemma Assoc(a: real, b: real, c: real)
    ensures (a * b) * c == a * (b * c)
  {
  }

  lemma SignOfFactor(a: real, v: real)
    requires a > 0.0
    ensures (a * v >= 0.0 <==> v >= 0.0) && (a * v == 0.0 <==> v == 0.0)
  {
    if v > 0.0 { assert a * v > 0.0; }
    if v < 0.0 { assert a * v < 0.0; }
  }

  lemma ProductPositive(a: real, b: real)
    requires a > 0.0 && b > 0.0
    ensures a * b > 0.0
  {
  }

  lemma ProductNonNegative(a: real, b: real)
    requires a >= 0.0 && b >= 0.0
    ensures a * b >= 0.0
  {
  }

  /** In exact arithmetic the negative-variance clamp never hides anything, and the
      zero z-score of a zero deviation happens only for a constant window. */
  lemma ClampHidesNothing(s: RollingStats)
    requires s.Consistent() && |s.values| >= 2
    ensures s.Variance() == Finite(RawVariance(|s.values|, s.sum, s.sumSq)) && s.Variance().value >= 0.0
    ensures s.Variance() == Finite(0.0) <==> Constant(s.values)
  {
    var n := |s.values|;
    VarianceIsScatter(n, s.sum, s.sumSq);
    ScatterNonNegative(s.values);
    ProductPositive(n as real, (n - 1) as real);
    SignOfFactor(n as real * (n - 1) as real, RawVariance(n, s.sum, s.sumSq));
  }

  // ---- Samuelson's inequality ----

  /** The multiset of values decides the sums, so any one value can be split off. */
  lemma {:induction false} SumRemove(xs: seq<real>, i: nat)
    requires i < |xs|
    ensures Sum(xs) == Sum(xs[..i] + xs[i + 1..]) + xs[i]
    ensures SumSq(xs) == SumSq(xs[..i] + xs[i + 1..]) + xs[i] * xs[i]
    decreases |xs|
  {
    hide Sum, SumSq;
    var n := |xs| - 1;
    var init, last := xs[..n], xs[n];
    assert xs == init + [last];
    SumAppend(init, last);
    if i == n {
      assert xs[..i] + xs[i + 1..] == init;
    } else {
      var rest := init[..i] + init[i + 1..];
      SumRemove(init, i);
      assert xs[..i] + xs[i + 1..] == rest + [last];
      SumAppend(rest, last);
    }
  }

  /** No value of a window is further from its mean than (n - 1) / sqrt(n) sample
      deviations; stated for squares. */
  lemma Samuelson(s: RollingStats, i: nat)
    requires s.Consistent() && |s.values| >= 2 && i < |s.values|
    ensures var n, d := |s.values|, s.values[i] - s.Mean().value;
            d * d <= SamuelsonBound(n) * s.Variance().value
  {
    hide ScatterWithout, Sum, SumSq;
    RestScatter(s.values, i);
    SamuelsonOf(s, s.values[i]);
  }

  lemma RestScatter(xs: seq<real>, i: nat)
    requires i < |xs|
    ensures ScatterWithout(|xs|, Sum(xs), SumSq(xs), xs[i]) >= 0.0
  {
    var rest := xs[..i] + xs[i + 1..];
    assert ScatterOf(rest) >= 0.0 by { ScatterNonNegative(rest); }
    assert ScatterOf(rest) == Scatter(|xs| - 1, Sum(rest), SumSq(rest));
    hide Sum, SumSq, Scatter, ScatterOf;
    SumRemove(xs, i);
  }

  lemma SamuelsonOf(s: RollingStats, v: real)
    requires s.Consistent() && |s.values| >= 2
    requires ScatterWithout(|s.values|, s.sum, s.sumSq, v) >= 0.0
    ensures (v - s.Mean().value) * (v - s.Mean().value) <= SamuelsonBound(|s.values|) * s.Variance().value
  {
    hide Scatter, ScatterWithout, RawVariance, SamuelsonBound, Sum, SumSq;
    ClampHidesNothing(s);
    VarianceIsScatter(|s.values|, s.sum, s.sumSq);
    SamuelsonAlgebra(|s.values|, s.sum, s.sumSq, v, RawVariance(|s.values|, s.sum, s.sumSq));
  }

  /** Square of (n - 1) / sqrt(n). */
  function SamuelsonBound(n: int): real
    requires n >= 1
  {
    ((n - 1) as real * (n - 1) as real) / n as real
  }

  lemma SamuelsonAlgebra(n: int, S: real, Q: real, v: real, variance: real)
    requires n >= 2
    requires (n as real * (n - 1) as real) * variance == Scatter(n, S, Q)
    requires ScatterWithout(n, S, Q, v) >= 0.0
    ensures (v - S / n as real) * (v - S / n as real) <= SamuelsonBound(n) * variance
  {
    hide Scatter, ScatterWithout, SamuelsonBound;
    var k, m, d := n as real, (n - 1) as real, v - S / n as real;
    var g, x := ScatterWithout(n, S, Q, v), Scatter(n, S, Q);
    var square := (k * v - S) * (k * v - S);
    SamuelsonGap(n, S, Q, v);
    assert k * g >= 0.0;
    assert m * x - square >= 0.0;
    assert k * d == k * v - S by { MeanTimesCount(k, v, S); }
    assert square == (k * k) * (d * d) by { SquareOfProduct(k, d); }
    assert m * x == (k * k) * (SamuelsonBound(n) * variance) by { BoundTimesSquare(n, variance); }
    CancelFactor(k * k, d * d, SamuelsonBound(n) * variance);
  }

  lemma MeanTimesCount(k: real, v: real, s: real)
    requires k > 0.0
    ensures k * (v - s / k) == k * v - s
  {
    assert k * (s / k) == s;
  }

  lemma SquareOfProduct(k: real, d: real)
    ensures (k * d) * (k * d) == (k * k) * (d * d)
  {
  }

  lemma BoundTimesSquare(n: int, variance: real)
    requires n >= 2
    ensures (n - 1) as real * ((n as real * (n - 1) as real) * variance) ==
            (n as real * n as real) * (SamuelsonBound(n) * variance)
  {
    var k, m, q := n as real, (n - 1) as real, SamuelsonBound(n);
    assert k * q == m * m;
    assert (k * k) * (q * variance) == k * ((k * q) * variance);
    assert m * ((k * m) * variance) == k * ((m * m) * variance);
  }

  lemma CancelFactor(a: real, x: real, y: real)
    requires a > 0.0 && a * y - a * x >= 0.0
    ensures x <= y
  {
    assert a * y - a * x == a * (y - x);
    SignOfFactor(a, y - x);
  }

  lemma SamuelsonGap(n: int, S: real, Q: real, v: real)
    ensures (n - 1) as real * Scatter(n, S, Q) - (n as real * v - S) * (n as real * v - S) ==
            n as real * ScatterWithout(n, S, Q, v)
  {
    var k := n as real;
    assert (n - 1) as real == k - 1.0;
  }

  /** The extreme case: the score of x read after adding it cannot exceed
      (n - 1) / sqrt(n), n counting x, so a threshold above that never fires however far
      out x is. (A threshold of 3 is above it for up to ten observations.) */
  lemma FoldingFirstSilencesAlerts(s: RollingStats, x: real, threshold: real)
    requires s.Consistent() && |s.values| >= 1 && threshold > 0.0
    requires threshold * threshold > SamuelsonBound(|s.Add(Finite(x)).values|)
    ensures var after := s.Add(Finite(x));
            after.Variance().Finite? && after.Variance().value >= 0.0
            && !after.Zscore(x).AtLeast(threshold)
  {
    hide Sum, SumSq, RawVariance, SamuelsonBound, Constant;
    var after := s.Add(Finite(x));
    NewestIsKept(s, x);
    assert after.Variance().Finite? && after.Variance().value >= 0.0 by { ClampHidesNothing(after); }
    Samuelson(after, |after.values| - 1);
    hide RollingStats.Add, RollingStats.Variance;
    var v, bound, d := after.Variance().value, SamuelsonBound(|after.values|), x - after.Mean().value;
    if v > 0.0 {
      StaysBelow(d, v, bound, threshold);
    }
  }

  lemma NewestIsKept(s: RollingStats, x: real)
    requires s.Consistent() && |s.values| >= 1
    ensures var after := s.Add(Finite(x));
            after.Consistent() && |after.values| >= 2 && after.values[|after.values| - 1] == x
  {
    hide Sum, SumSq;
    AddKeepsSums(s, Finite(x));
  }

  lemma StaysBelow(d: real, v: real, bound: real, threshold: real)
    requires v > 0.0 && d * d <= bound * v && threshold * threshold > bound
    ensures d * d < threshold * threshold * v
  {
    ProductPositive(threshold * threshold - bound, v);
    assert (threshold * threshold - bound) * v == threshold * threshold * v - bound * v;
  }

  // ---- A score read before and after folding in ----

  /** The window with room for one more: a full one gives up its oldest value. */
  function WithRoom(s: RollingStats): RollingStats {
    if |s.values| < s.capacity || s.values == [] then s
    else s.(values := s.values[1..], sum := s.sum - s.values[0], sumSq := s.sumSq - s.values[0] * s.values[0])
  }

  lemma AddAfterRoom(s: RollingStats, x: real)
    requires s.Consistent()
    ensures WithRoom(s).Consistent() && |WithRoom(s).values| < s.capacity
    ensures s.Add(Finite(x)) == WithRoom(s).Add(Finite(x))
  {
    hide Sum, SumSq;
    if |s.values| == s.capacity { SumFront(s.values); }
  }

  lemma Cancel(a: real, x: real, y: real)
    requires a > 0.0 && a * x == a * y
    ensures x == y
  {
    SignOfFactor(a, x - y);
    assert a * (x - y) == a * x - a * y;
  }

  /** The scatter around x, in terms of x's distance from the mean. */
  lemma ExpandedCentered(q: real, s: real, k: real, x: real)
    ensures k * Expanded(q, s, k, x) == (k * q - s * s) + (k * x - s) * (k * x - s)
  {
    assert k * (q - 2.0 * x * s + k * x * x) == k * q - 2.0 * (k * x) * s + (k * x) * (k * x);
    assert (k * x - s) * (k * x - s) == (k * x) * (k * x) - 2.0 * (k * x) * s + s * s;
  }

  lemma AppendedVariance(k: real, scatter: real, e: real, d2: real, v: real, v': real)
    requires k > 0.0 && (k * (k - 1.0)) * v == scatter && ((k + 1.0) * k) * v' == scatter + e
    requires k * e == scatter + (k * k) * d2
    ensures ((k + 1.0) * k) * v' == ((k + 1.0) * (k - 1.0)) * v + k * d2
  {
    assert k * (((k + 1.0) * k) * v') == k * scatter + k * e;
    assert k * (((k + 1.0) * (k - 1.0)) * v) == (k + 1.0) * ((k * (k - 1.0)) * v);
    assert (k + 1.0) * scatter == k * scatter + scatter;
    assert k * (k * d2) == (k * k) * d2;
    Cancel(k, ((k + 1.0) * k) * v', ((k + 1.0) * (k - 1.0)) * v + k * d2);
  }

  ghost predicate IsVariance(k: real, sum: real, sumSq: real, v: real) {
    (k * (k - 1.0)) * v == k * sumSq - sum * sum
  }

  ghost predicate IsDeviation(k: real, sum: real, x: real, d: real) {
    k * d == k * x - sum
  }

  /** How a deviation and a variance change when x joins a window of k. */
  ghost predicate Joins(k: real, d: real, v: real, d': real, v': real) {
    && (k + 1.0) * d' == k * d
    && ((k + 1.0) * k) * v' == ((k + 1.0) * (k - 1.0)) * v + k * Squared(d)
  }

  lemma RawVarianceIs(n: int, sum: real, sumSq: real)
    requires n >= 2
    ensures IsVariance(n as real, sum, sumSq, RawVariance(n, sum, sumSq))
  {
    VarianceIsScatter(n, sum, sumSq);
    assert (n - 1) as real == n as real - 1.0;
  }

  lemma DeviationIs(k: real, sum: real, x: real)
    requires k > 0.0
    ensures IsDeviation(k, sum, x, x - sum / k)
  {
    MeanTimesCount(k, x, sum);
  }

  lemma AppendScatter(k: real, sum: real, sumSq: real, x: real)
    ensures (k + 1.0) * (sumSq + x * x) - (sum + x) * (sum + x) ==
            (k * sumSq - sum * sum) + Expanded(sumSq, sum, k, x)
  {
    assert (k + 1.0) * (sumSq + x * x) == k * sumSq + k * (x * x) + sumSq + x * x;
    assert (sum + x) * (sum + x) == sum * sum + 2.0 * x * sum + x * x;
    assert k * x * x == k * (x * x);
  }

  lemma JoinsDeviation(k: real, sum: real, x: real, d: real, d': real)
    requires IsDeviation(k, sum, x, d) && IsDeviation(k + 1.0, sum + x, x, d')
    ensures (k + 1.0) * d' == k * d == k * x - sum
  {
    assert (k + 1.0) * x == k * x + x;
  }

  lemma VarianceGrows(k: real, sum: real, sumSq: real, x: real, v': real)
    requires IsVariance(k + 1.0, sum + x, sumSq + x * x, v')
    ensures ((k + 1.0) * k) * v' == (k * sumSq - sum * sum) + Expanded(sumSq, sum, k, x)
  {
    hide Expanded;
    AppendScatter(k, sum, sumSq, x);
    assert (k + 1.0) - 1.0 == k;
  }

  lemma ExpandedAroundMean(k: real, sum: real, sumSq: real, x: real, d: real)
    requires k * d == k * x - sum
    ensures k * Expanded(sumSq, sum, k, x) == (k * sumSq - sum * sum) + (k * k) * Squared(d)
  {
    hide Expanded;
    ExpandedCentered(sumSq, sum, k, x);
    SquareOfProduct(k, d);
    SquaredIs(d);
  }

  lemma SquaredIs(d: real)
    ensures Squared(d) == d * d
  {
  }

  lemma JoinsVariance(k: real, sum: real, sumSq: real, x: real, v: real, v': real, d: real)
    requires k > 0.0 && k * d == k * x - sum
    requires IsVariance(k, sum, sumSq, v) && IsVariance(k + 1.0, sum + x, sumSq + x * x, v')
    ensures ((k + 1.0) * k) * v' == ((k + 1.0) * (k - 1.0)) * v + k * Squared(d)
  {
    hide Expanded, Squared;
    ExpandedAroundMean(k, sum, sumSq, x, d);
    VarianceGrows(k, sum, sumSq, x, v');
    assert (k * (k - 1.0)) * v == k * sumSq - sum * sum;
    hide IsVariance;
    AppendedVariance(k, k * sumSq - sum * sum, Expanded(sumSq, sum, k, x), Squared(d), v, v');
  }

  lemma JoinsFrom(k: real, sum: real, sumSq: real, x: real, d: real, v: real, d': real, v': real)
    requires k > 0.0 && IsDeviation(k, sum, x, d) && IsDeviation(k + 1.0, sum + x, x, d')
    requires IsVariance(k, sum, sumSq, v) && IsVariance(k + 1.0, sum + x, sumSq + x * x, v')
    ensures Joins(k, d, v, d', v')
  {
    hide IsVariance, Squared, IsDeviation;
    JoinsDeviation(k, sum, x, d, d');
    JoinsVariance(k, sum, sumSq, x, v, v', d);
  }

  lemma AppendMoments(n: int, sum: real, sumSq: real, x: real)
    requires n >= 2
    ensures Joins(n as real, x - sum / n as real, RawVariance(n, sum, sumSq),
                  x - (sum + x) / (n + 1) as real, RawVariance(n + 1, sum + x, sumSq + x * x))
  {
    hide RawVariance, IsVariance, IsDeviation, Joins;
    var k := n as real;
    assert (n + 1) as real == k + 1.0;
    DeviationIs(k, sum, x);
    DeviationIs(k + 1.0, sum + x, x);
    RawVarianceIs(n, sum, sumSq);
    RawVarianceIs(n + 1, sum + x, sumSq + x * x);
    JoinsFrom(k, sum, sumSq, x, x - sum / k, RawVariance(n, sum, sumSq),
              x - (sum + x) / (n + 1) as real, RawVariance(n + 1, sum + x, sumSq + x * x));
  }

  /** What the two relations leave of a squared score: its deviation shrinks faster than
      its variance can. */
  lemma ScoreShrinks(k: real, d: real, v: real, d': real, v': real)
    requires k >= 2.0 && v > 0.0 && Joins(k, d, v, d', v')
    ensures v' > 0.0
    ensures Squared(d') * v <= Squared(d) * v'
    ensures d != 0.0 ==> Squared(d') * v < Squared(d) * v'
  {
    hide Squared;
    JoinsSquares(k, d, v, d', v');
    SquaredSign(d);
    VarianceStaysPositive(k, Squared(d), v, v');
    CrossProducts(k, Squared(d), v, Squared(d'), v');
    TimesIs(Squared(d'), v);
    TimesIs(Squared(d), v');
  }

  lemma JoinsSquares(k: real, d: real, v: real, d': real, v': real)
    requires Joins(k, d, v, d', v')
    ensures ((k + 1.0) * (k + 1.0)) * Squared(d') == (k * k) * Squared(d)
  {
    SquareOfProduct(k + 1.0, d');
    SquareOfProduct(k, d);
  }

  lemma VarianceStaysPositive(k: real, d2: real, v: real, v': real)
    requires k >= 2.0 && v >= 0.0 && d2 >= 0.0 && (v > 0.0 || d2 > 0.0)
    requires ((k + 1.0) * k) * v' == ((k + 1.0) * (k - 1.0)) * v + k * d2
    ensures v' > 0.0
  {
    ShrinkingFactor(k);
    var a, b := (k + 1.0) * k, (k + 1.0) * (k - 1.0);
    ProductNonNegative(b, v);
    ProductNonNegative(k, d2);
    if v > 0.0 { ProductPositive(b, v); } else { ProductPositive(k, d2); }
    if v' <= 0.0 { ProductNonNegative(a, -v'); }
  }

  lemma TimesIs(a: real, b: real)
    ensures Times(a, b) == a * b
  {
  }

  // The polynomials in k that the comparison of cross products comes down to.

  function Widening(k: real): real { ((k + 1.0) * (k + 1.0)) * k }

  function Excess(k: real): real { k * k - k - 1.0 }

  function Successive(k: real): real { (k + 1.0) * k }

  lemma CrossProducts(k: real, d2: real, v: real, d2': real, v': real)
    requires k >= 2.0 && v > 0.0 && d2 >= 0.0
    requires ((k + 1.0) * (k + 1.0)) * d2' == (k * k) * d2
    requires ((k + 1.0) * k) * v' == ((k + 1.0) * (k - 1.0)) * v + k * d2
    ensures Times(d2', v) <= Times(d2, v') && (d2 > 0.0 ==> Times(d2', v) < Times(d2, v'))
  {
    GapInTimes(k, d2, v, d2', v');
    hide Times, Widening, Excess, Successive;
    PolynomialsPositive(k);
    TimesNonNegative(d2, v);
    TimesNonNegative(d2, d2);
    TimesSign(d2, v);
    GapSign(Widening(k), Times(d2, v') - Times(d2', v), Excess(k), Times(d2, v), Successive(k), Times(d2, d2));
  }

  lemma GapInTimes(k: real, d2: real, v: real, d2': real, v': real)
    requires ((k + 1.0) * (k + 1.0)) * d2' == (k * k) * d2
    requires ((k + 1.0) * k) * v' == ((k + 1.0) * (k - 1.0)) * v + k * d2
    ensures Times(Widening(k), Times(d2, v') - Times(d2', v)) ==
            Times(Excess(k), Times(d2, v)) + Times(Successive(k), Times(d2, d2))
  {
    ShrinkGap(k, d2, v, d2', v');
  }

  lemma PolynomialsPositive(k: real)
    requires k >= 2.0
    ensures Widening(k) > 0.0 && Excess(k) > 0.0 && Successive(k) > 0.0
  {
    ShrinkingFactor(k);
  }

  lemma TimesNonNegative(a: real, b: real)
    requires a >= 0.0 && b >= 0.0
    ensures Times(a, b) >= 0.0
  {
    ProductNonNegative(a, b);
  }

  lemma GapSign(w: real, gap: real, f: real, p: real, g: real, q: real)
    requires w > 0.0 && f > 0.0 && g > 0.0 && p >= 0.0 && q >= 0.0
    requires Times(w, gap) == Times(f, p) + Times(g, q)
    ensures gap >= 0.0 && (p > 0.0 ==> gap > 0.0)
  {
    TimesNonNegative(f, p);
    TimesNonNegative(g, q);
    TimesSign(f, p);
    TimesSign(w, -gap);
    TimesNegated(w, gap);
    hide Times;
    if gap == 0.0 { TimesZero(w); }
  }

  lemma TimesNegated(a: real, b: real)
    ensures Times(a, -b) == -Times(a, b)
  {
  }

  lemma TimesZero(a: real)
    ensures Times(a, 0.0) == 0.0
  {
  }

  lemma ShrinkingFactor(k: real)
    requires k >= 2.0
    ensures k * k - k - 1.0 > 0.0
    ensures (k + 1.0) * (k - 1.0) > 0.0 && (k + 1.0) * k > 0.0 && ((k + 1.0) * (k + 1.0)) * k > 0.0
  {
    assert k * k >= 2.0 * k;
  }

  lemma ShrinkGap(k: real, d2: real, v: real, d2': real, v': real)
    requires ((k + 1.0) * (k + 1.0)) * d2' == (k * k) * d2
    requires ((k + 1.0) * k) * v' == ((k + 1.0) * (k - 1.0)) * v + k * d2
    ensures (((k + 1.0) * (k + 1.0)) * k) * (d2 * v' - d2' * v) ==
            (k * k - k - 1.0) * (d2 * v) + ((k + 1.0) * k) * (d2 * d2)
  {
    var a := k + 1.0;
    var left, right := ((a * a) * k) * (d2 * v'), ((a * a) * k) * (d2' * v);
    assert left == (a * d2) * ((a * k) * v');
    assert right == (k * v) * ((a * a) * d2');
    assert left == (a * d2) * ((a * (k - 1.0)) * v + k * d2);
    assert left == ((a * a) * (k - 1.0)) * (d2 * v) + (a * k) * (d2 * d2);
    assert right == ((k * k) * k) * (d2 * v);
    assert (a * a) * (k - 1.0) - (k * k) * k == k * k - k - 1.0;
  }

  lemma AddMoments(s: RollingStats, x: real)
    requires s.Consistent() && 2 <= |s.values| < s.capacity
    ensures var after, n := s.Add(Finite(x)), |s.values|;
            && after.Consistent() && |after.values| == n + 1
            && s.Variance() == Finite(RawVariance(n, s.sum, s.sumSq))
            && after.Variance() == Finite(RawVariance(n + 1, s.sum + x, s.sumSq + x * x))
            && after.Mean().value == (s.sum + x) / (n + 1) as real
  {
    hide Sum, SumSq, RawVariance, Constant;
    var after := s.Add(Finite(x));
    AddKeepsSums(s, Finite(x));
    assert |after.values| == |s.values| + 1 && after.sum == s.sum + x && after.sumSq == s.sumSq + x * x;
    ClampHidesNothing(s);
    ClampHidesNothing(after);
  }

  lemma DampensWithRoom(s: RollingStats, x: real, threshold: real)
    requires s.Consistent() && 2 <= |s.values| < s.capacity && !Constant(s.values) && threshold > 0.0
    ensures var (before, after) := (s.Zscore(x), s.Add(Finite(x)).Zscore(x));
            && before.Score? && after.Score? && before.variance > 0.0 && after.variance > 0.0
            && (before.deviation != 0.0 ==>
                  Squared(after.deviation) * before.variance < Squared(before.deviation) * after.variance)
            && (after.AtLeast(threshold) ==> before.AtLeast(threshold))
  {
    hide Sum, SumSq, RawVariance, Constant, RollingStats.Add, RollingStats.Consistent;
    ClampHidesNothing(s);
    AddMoments(s, x);
    var n := |s.values|;
    var d, d' := x - s.sum / n as real, x - (s.sum + x) / (n + 1) as real;
    var v, v' := RawVariance(n, s.sum, s.sumSq), RawVariance(n + 1, s.sum + x, s.sumSq + x * x);
    SquaresShrink(n, s.sum, s.sumSq, x);
    assert s.Zscore(x) == Score(d, v) && s.Add(Finite(x)).Zscore(x) == Score(d', v');
    hide Squared;
    SmallerScore(d, v, d', v', threshold);
  }

  /** Why a score is read before its observation is folded in, at every threshold. Making
      room aside, reading it afterwards gives a score that is never larger, and strictly
      smaller unless x is the mean: whatever would fire afterwards fires before. (The
      window must not be constant; `ConstantWindowScores` is that case.) */
  lemma FoldingFirstDampens(s: RollingStats, x: real, threshold: real)
    requires s.Consistent() && threshold > 0.0
    requires |WithRoom(s).values| >= 2 && !Constant(WithRoom(s).values)
    ensures |s.values| < s.capacity ==> WithRoom(s) == s
    ensures var (before, after) := (WithRoom(s).Zscore(x), s.Add(Finite(x)).Zscore(x));
            && before.Score? && after.Score? && before.variance > 0.0 && after.variance > 0.0
            && (before.deviation != 0.0 ==>
                  Squared(after.deviation) * before.variance < Squared(before.deviation) * after.variance)
            && (after.AtLeast(threshold) ==> before.AtLeast(threshold))
  {
    hide Sum, SumSq, Constant, RollingStats.Variance, Squared;
    AddAfterRoom(s, x);
    DampensWithRoom(WithRoom(s), x, threshold);
  }

  lemma SquaresShrink(n: int, sum: real, sumSq: real, x: real)
    requires n >= 2 && RawVariance(n, sum, sumSq) > 0.0
    ensures var d, d' := x - sum / n as real, x - (sum + x) / (n + 1) as real;
            var v, v' := RawVariance(n, sum, sumSq), RawVariance(n + 1, sum + x, sumSq + x * x);
            && v' > 0.0 && Squared(d') * v <= Squared(d) * v'
            && (d != 0.0 ==> Squared(d') * v < Squared(d) * v')
  {
    hide RawVariance, Joins, Squared;
    AppendMoments(n, sum, sumSq, x);
    ScoreShrinks(n as real, x - sum / n as real, RawVariance(n, sum, sumSq),
                 x - (sum + x) / (n + 1) as real, RawVariance(n + 1, sum + x, sumSq + x * x));
  }

  lemma SmallerScore(d: real, v: real, d': real, v': real, threshold: real)
    requires v > 0.0 && v' > 0.0 && Squared(d') * v <= Squared(d) * v'
    ensures Score(d', v').AtLeast(threshold) ==> Score(d, v).AtLeast(threshold)
  {
    var t := threshold * threshold;
    SquaredIs(d);
    SquaredIs(d');
    hide Squared;
    if Squared(d') >= t * v' {
      ScaleCompare(t * v', Squared(d'), v);
      assert (t * v') * v == (t * v) * v';
      ScaleCompare(t * v, Squared(d), v');
    }
  }

  /** A constant window scores 0 whatever x is; after folding in any other x it scores
      exactly the largest that a window of that size can, (n - 1) / sqrt(n). */
  lemma ConstantWindowScores(s: RollingStats, x: real, threshold: real)
    requires s.Consistent() && 2 <= |s.values| < s.capacity && Constant(s.values) && threshold > 0.0
    ensures s.Zscore(x) == Score(0.0, 0.0) && !s.Zscore(x).AtLeast(threshold)
    ensures x != s.Mean().value ==>
              var after, bound := s.Add(Finite(x)).Zscore(x), SamuelsonBound(|s.values| + 1);
              && after.Score? && after.variance > 0.0
              && Squared(after.deviation) == bound * after.variance
              && (after.AtLeast(threshold) <==> threshold * threshold <= bound)
  {
    hide Sum, SumSq, RawVariance, Constant, RollingStats.Add, RollingStats.Consistent, SamuelsonBound;
    ClampHidesNothing(s);
    if x != s.Mean().value {
      AddMoments(s, x);
      var n := |s.values|;
      var d' := x - (s.sum + x) / (n + 1) as real;
      var v', bound := RawVariance(n + 1, s.sum + x, s.sumSq + x * x), SamuelsonBound(n + 1);
      OutlierSquares(n, s.sum, s.sumSq, x);
      SquaredIs(d');
      assert s.Add(Finite(x)).Zscore(x) == Score(d', v');
      ScaleCompare(threshold * threshold, bound, v');
    }
  }

  lemma OutlierSquares(n: int, sum: real, sumSq: real, x: real)
    requires n >= 2 && RawVariance(n, sum, sumSq) == 0.0 && x != sum / n as real
    ensures var d', v' := x - (sum + x) / (n + 1) as real, RawVariance(n + 1, sum + x, sumSq + x * x);
            v' > 0.0 && Squared(d') == SamuelsonBound(n + 1) * v'
  {
    hide RawVariance, SamuelsonBound, Joins, Squared;
    AppendMoments(n, sum, sumSq, x);
    LoneOutlier(n, x - sum / n as real, x - (sum + x) / (n + 1) as real,
                RawVariance(n + 1, sum + x, sumSq + x * x));
  }

  lemma LoneOutlier(n: int, d: real, d': real, v': real)
    requires n >= 2 && d != 0.0 && Joins(n as real, d, 0.0, d', v')
    ensures v' > 0.0 && Squared(d') == SamuelsonBound(n + 1) * v'
  {
    hide Squared;
    var k, bound := n as real, SamuelsonBound(n + 1);
    JoinsSquares(k, d, 0.0, d', v');
    SquaredSign(d);
    VarianceStaysPositive(k, Squared(d), 0.0, v');
    assert bound * (k + 1.0) == k * k;
    hide SamuelsonBound;
    OutlierAlgebra(k, k + 1.0, bound, Squared(d), Squared(d'), v');
  }

  lemma OutlierAlgebra(k: real, a: real, bound: real, d2: real, d2': real, v': real)
    requires k > 0.0 && a > 0.0 && bound * a == k * k
    requires (a * a) * d2' == (k * k) * d2 && (a * k) * v' == k * d2
    ensures d2' == bound * v'
  {
    assert k * (a * v') == (a * k) * v';
    Cancel(k, a * v', d2);
    assert a * (a * (bound * v')) == (bound * a) * (a * v');
    assert a * (a * d2') == (a * a) * d2';
    Cancel(a, a * d2', a * (bound * v'));
    Cancel(a, d2', bound * v');
  }

  /** Making room can raise a score instead, by forgetting an old outlier: this is about
      the window's capacity, not about when the score is read. */
  lemma EvictionCanRaiseAScore()
    ensures var s := RollingStats(3, [100.0, 0.0, 1.0], 101.0, 10001.0);
            && s.Consistent() && !s.Zscore(3.0).AtLeast(1.0)
            && s.Add(Finite(3.0)).Zscore(3.0).AtLeast(1.0)
            && WithRoom(s).Zscore(3.0).AtLeast(1.0)
  {
    SumAppend([], 100.0);
    SumAppend([100.0], 0.0);
    SumAppend([100.0, 0.0], 1.0);
    assert [] + [100.0] == [100.0] && [100.0] + [0.0] == [100.0, 0.0];
    assert [100.0, 0.0] + [1.0] == [100.0, 0.0, 1.0];
  }

  // ---- Mirrored windows ----

  function Negated(xs: seq<real>): (ys: seq<real>)
    ensures |ys| == |xs|
  {
    seq(|xs|, i requires 0 <= i < |xs| => -xs[i])
  }

  /** The statistics of the same observations with the opposite sign. */
  function Mirror(s: RollingStats): RollingStats {
    s.(values := Negated(s.values), sum := -s.sum)
  }

  lemma {:induction false} NegatedSums(xs: seq<real>)
    ensures Sum(Negated(xs)) == -Sum(xs) && SumSq(Negated(xs)) == SumSq(xs)
  {
    if xs != [] {
      var n := |xs| - 1;
      NegatedSums(xs[..n]);
      assert Negated(xs)[..n] == Negated(xs[..n]);
      assert (-xs[n]) * (-xs[n]) == xs[n] * xs[n];
    }
  }

  /** Mirroring is what observing the opposite signs gives, and it flips the sign of
      every deviation while keeping every variance and every threshold decision. */
  lemma MirrorFlipsScores(s: RollingStats, x: real, threshold: real)
    requires s.Consistent()
    ensures Mirror(s).Consistent()
    ensures Mirror(s).Variance() == s.Variance()
    ensures Mirror(s).Zscore(-x).AtLeast(threshold) == s.Zscore(x).AtLeast(threshold)
    ensures match (s.Zscore(x), Mirror(s).Zscore(-x))
            case (NotAScore, NotAScore) => true
            case (Score(d, v), Score(d', v')) => d' == -d && v' == v
            case _ => false
  {
    hide Sum, SumSq, RawVariance;
    NegatedSums(s.values);
    MirrorVariance(s);
    if |s.values| >= 2 {
      NegatedQuotient(s.sum, |s.values| as real);
      var d := x - s.Mean().value;
      assert -x - Mirror(s).Mean().value == -d;
      hide RollingStats.Variance, RollingStats.Mean, Mirror;
      OppositeScore(d, s.Variance().value, threshold);
    }
  }

  lemma MirrorVariance(s: RollingStats)
    ensures Mirror(s).Variance() == s.Variance()
  {
    assert (-s.sum) * (-s.sum) == s.sum * s.sum;
  }

  lemma OppositeScore(d: real, v: real, threshold: real)
    ensures Score(-d, v).AtLeast(threshold) == Score(d, v).AtLeast(threshold)
  {
    assert (-d) * (-d) == d * d;
  }

  lemma NegatedQuotient(a: real, n: real)
    requires n > 0.0
    ensures (-a) / n == -(a / n)
  {
    var q, p := a / n, (-a) / n;
    assert q * n == a && p * n == -a;
    assert (p + q) * n == 0.0;
    SignOfFactor(n, p + q);
    assert n * (p + q) == (p + q) * n;
  }

  /** The score of a consistent window in terms of its values alone. */
  lemma ScoreFromValues(s: RollingStats, x: real, threshold: real)
    requires s.Consistent()
    ensures s.Zscore(x).AtLeast(threshold) <==>
            && |s.values| >= 2
            && (threshold <= 0.0
                || (!Constant(s.values)
                    && var d, v := x - Sum(s.values) / |s.values| as real,
                                   RawVariance(|s.values|, Sum(s.values), SumSq(s.values));
                       d * d >= threshold * threshold * v))
  {
    if |s.values| >= 2 {
      hide Constant, RawVariance, Sum, SumSq;
      ClampHidesNothing(s);
    }
  }
}

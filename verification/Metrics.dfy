/** Retrieval metrics in integer basis points (crates/code-bench/src/metrics.rs).
    Counts are unbounded here; the narrowing to 32 bits is kept. */
module Metrics {
  import opened Base

  const BASIS_POINTS_PER_UNIT: nat := 10_000

  /** `num / den`, rounded half up. */
  function RoundDiv(num: nat, den: nat): nat
    requires den > 0
  {
    (2 * num + den) / (2 * den)
  }

  function Ratio(num: nat, den: nat): nat
    requires den > 0
  {
    var q := RoundDiv(num * BASIS_POINTS_PER_UNIT, den);
    if q < U32_LIMIT then q else U32_LIMIT - 1
  }

  lemma DivBelow(x: nat, d: nat, q: nat)
    requires d > 0 && x < q * d
    ensures x / d < q
  {}

  lemma DivAbove(x: nat, d: nat, q: nat)
    requires d > 0 && q * d <= x
    ensures q <= x / d
  {
    var r := x / d;
    assert x == r * d + x % d;
    assert (q - r) * d == q * d - r * d;
    LessThanOne(q - r, d);
  }

  lemma LessThanOne(k: int, d: nat)
    requires k * d < d
    ensures k < 1
  {
    assert k >= 1 ==> k * d >= d;
  }

  /** Rounding keeps whole bounds. */
  lemma RoundDivBetween(low: nat, num: nat, high: nat, den: nat)
    requires den > 0 && low * den <= num <= high * den
    ensures low <= RoundDiv(num, den) <= high
  {
    assert low * (2 * den) == 2 * (low * den) && (high + 1) * (2 * den) == 2 * (high * den) + 2 * den;
    DivAbove(2 * num + den, 2 * den, low);
    DivBelow(2 * num + den, 2 * den, high + 1);
  }

  /** `q` is the whole number nearest to `num / den`, the higher one of two. */
  predicate Nearest(q: nat, num: nat, den: nat) {
    2 * q * den <= 2 * num + den < 2 * (q + 1) * den
  }

  lemma RoundDivIsNearest(q: nat, num: nat, den: nat)
    requires den > 0
    ensures RoundDiv(num, den) == q <==> Nearest(q, num, den)
  {
    assert q * (2 * den) == 2 * q * den && (q + 1) * (2 * den) == 2 * (q + 1) * den;
    if Nearest(q, num, den) {
      DivAbove(2 * num + den, 2 * den, q);
      DivBelow(2 * num + den, 2 * den, q + 1);
    }
  }

  lemma RoundDivMono(a: nat, b: nat, den: nat)
    requires den > 0 && a <= b
    ensures RoundDiv(a, den) <= RoundDiv(b, den)
  {
    var q := RoundDiv(a, den);
    assert q * (2 * den) <= 2 * a + den;
    DivAbove(2 * b + den, 2 * den, q);
  }

  /** A share of a whole is at most 10,000, and grows with the part. */
  lemma RatioOfPart(part: nat, more: nat, whole: nat)
    requires whole > 0 && part <= more <= whole
    ensures Ratio(part, whole) <= Ratio(more, whole) <= BASIS_POINTS_PER_UNIT
  {
    RoundDivMono(part * BASIS_POINTS_PER_UNIT, more * BASIS_POINTS_PER_UNIT, whole);
    assert 0 * whole == 0;
    RoundDivBetween(0, more * BASIS_POINTS_PER_UNIT, BASIS_POINTS_PER_UNIT, whole);
  }

  /** A share is the nearest number of basis points, or the largest 32-bit number
      when that is larger, which no share of a whole is. */
  lemma RatioIsNearest(part: nat, whole: nat, q: nat)
    requires whole > 0 && Nearest(q, part * BASIS_POINTS_PER_UNIT, whole)
    ensures Ratio(part, whole) == Min(q, 0xFFFF_FFFF)
    ensures part <= whole ==> Ratio(part, whole) == q <= BASIS_POINTS_PER_UNIT
  {
    RoundDivIsNearest(q, part * BASIS_POINTS_PER_UNIT, whole);
    if part <= whole {
      assert 0 * whole == 0;
      RoundDivBetween(0, part * BASIS_POINTS_PER_UNIT, BASIS_POINTS_PER_UNIT, whole);
    }
  }

  // ---- Distinct results and hits.

  function ToSet<T(==)>(s: seq<T>): set<T> {
    set x | x in s
  }

  /** The first occurrence of every element, in order. */
  function Distinct<T(==)>(s: seq<T>): seq<T> {
    if s == [] then []
    else
      var (front, last) := (s[..|s| - 1], s[|s| - 1]);
      if last in front then Distinct(front) else Distinct(front) + [last]
  }

  method DistinctOf<T(==)>(retrieved: seq<T>) returns (unique: seq<T>)
    ensures unique == Distinct(retrieved)
  {
    var seen: set<T> := {};
    unique := [];
    for i := 0 to |retrieved|
      invariant seen == ToSet(retrieved[..i])
      invariant unique == Distinct(retrieved[..i])
    {
      assert retrieved[..i + 1][..i] == retrieved[..i];
      var item := retrieved[i];
      if item !in seen {
        unique := unique + [item];
      }
      seen := seen + {item};
      assert forall x :: x in retrieved[..i + 1] <==> x in retrieved[..i] || x == item;
    }
    assert retrieved[..|retrieved|] == retrieved;
  }

  function CountIn<T(==)>(s: seq<T>, truth: seq<T>): nat {
    if s == [] then 0
    else CountIn(s[..|s| - 1], truth) + if s[|s| - 1] in truth then 1 else 0
  }

  /** Distinct correct results, and distinct results. */
  function Hits<T(==)>(retrieved: seq<T>, truth: seq<T>): (nat, nat) {
    var unique := Distinct(retrieved);
    (CountIn(unique, truth), |unique|)
  }

  lemma AddOne<T>(a: set<T>, x: T, truth: set<T>)
    requires x !in a
    ensures |a + {x}| == |a| + 1
    ensures |(a + {x}) * truth| == |a * truth| + if x in truth then 1 else 0
  {
    if x in truth {
      assert (a + {x}) * truth == a * truth + {x};
    } else {
      assert (a + {x}) * truth == a * truth;
    }
  }

  lemma HitsStep<T>(front: seq<T>, last: T, truth: seq<T>)
    ensures Hits(front + [last], truth) ==
      if last in front then Hits(front, truth)
      else (Hits(front, truth).0 + (if last in truth then 1 else 0), Hits(front, truth).1 + 1)
  {
    var s := front + [last];
    assert s[..|s| - 1] == front;
    var unique := Distinct(s);
    if last !in front {
      assert unique[..|unique| - 1] == Distinct(front);
    }
  }

  lemma ToSetStep<T>(front: seq<T>, last: T)
    ensures ToSet(front + [last]) == ToSet(front) + {last}
    ensures last in front ==> ToSet(front + [last]) == ToSet(front)
  {}

  /** The counts are the sizes of the pooled sets. */
  lemma {:induction false} HitsAreSets<T>(retrieved: seq<T>, truth: seq<T>)
    ensures Hits(retrieved, truth) == (|ToSet(retrieved) * ToSet(truth)|, |ToSet(retrieved)|)
  {
    if retrieved == [] {
      assert ToSet(retrieved) * ToSet(truth) == {};
    } else {
      var (front, last) := (retrieved[..|retrieved| - 1], retrieved[|retrieved| - 1]);
      HitsAreSets(front, truth);
      assert retrieved == front + [last];
      HitsStep(front, last, truth);
      ToSetStep(front, last);
      if last !in front {
        AddOne(ToSet(front), last, ToSet(truth));
      }
    }
  }

  function Precision<T(==)>(retrieved: seq<T>, truth: seq<T>): Option<nat> {
    var (found, total) := Hits(retrieved, truth);
    if total > 0 then Some(Ratio(found, total)) else None
  }

  function Recall<T(==)>(retrieved: seq<T>, truth: seq<T>): Option<nat> {
    var wanted := |ToSet(truth)|;
    if wanted > 0 then Some(Ratio(Hits(retrieved, truth).0, wanted)) else None
  }

  lemma SubsetSize<T>(a: set<T>, b: set<T>)
    requires a <= b
    ensures |a| <= |b|
  {
    assert b == a + (b - a);
  }

  /** Precision and recall are shares of the pooled sets, so neither passes
      10,000, and each is missing only when its set is empty. */
  lemma SharesOfPooledSets<T>(retrieved: seq<T>, truth: seq<T>)
    ensures var (r, t) := (ToSet(retrieved), ToSet(truth));
      && Precision(retrieved, truth) == (if r == {} then None else Some(Ratio(|r * t|, |r|)))
      && Recall(retrieved, truth) == (if t == {} then None else Some(Ratio(|r * t|, |t|)))
    ensures Precision(retrieved, truth).GetOr(0) <= BASIS_POINTS_PER_UNIT
    ensures Recall(retrieved, truth).GetOr(0) <= BASIS_POINTS_PER_UNIT
  {
    HitsAreSets(retrieved, truth);
    var (r, t) := (ToSet(retrieved), ToSet(truth));
    SubsetSize(r * t, r);
    SubsetSize(r * t, t);
    if r != {} {
      var x :| x in r;
      assert |r| > 0;
      RatioOfPart(|r * t|, |r * t|, |r|);
    }
    if t != {} {
      var x :| x in t;
      assert |t| > 0;
      RatioOfPart(|r * t|, |r * t|, |t|);
    }
  }

  // ---- F1, ranks and the means over queries.

  function F1(precision: nat, recall: nat): nat {
    if precision + recall == 0 then 0
    else
      var q := RoundDiv(2 * precision * recall, precision + recall);
      if q < U32_LIMIT then q else U32_LIMIT - 1
  }

  lemma HarmonicBounds(low: nat, high: nat)
    requires low <= high
    ensures low * (low + high) <= 2 * low * high <= high * (low + high)
    ensures 2 * low * high == 2 * high * low
  {
    MulMono(low, low, high);
    MulMono(high, low, high);
  }

  lemma HarmonicRounded(low: nat, high: nat)
    requires low <= high && 0 < low + high
    ensures low <= RoundDiv(2 * low * high, low + high) <= high
    ensures low <= RoundDiv(2 * high * low, high + low) <= high
  {
    HarmonicBounds(low, high);
    RoundDivBetween(low, 2 * low * high, high, low + high);
  }

  lemma HarmonicBetween(a: nat, b: nat)
    requires 0 < a + b
    ensures Min(a, b) <= RoundDiv(2 * a * b, a + b) <= Max(a, b)
  {
    if a <= b {
      HarmonicRounded(a, b);
    } else {
      HarmonicRounded(b, a);
    }
  }

  lemma RoundedIsNearest(num: nat, den: nat)
    requires den > 0
    ensures Nearest(RoundDiv(num, den), num, den)
  {
    RoundDivIsNearest(RoundDiv(num, den), num, den);
  }

  /** F1 is the harmonic mean of the two shares, rounded, and 0 when both are 0. */
  lemma F1IsNearest(precision: nat, recall: nat, num: nat, den: nat)
    requires precision < U32_LIMIT && recall < U32_LIMIT && num == 2 * precision * recall && den == precision + recall
    ensures if den == 0 then F1(precision, recall) == 0 else Nearest(F1(precision, recall), num, den)
  {
    if den > 0 {
      HarmonicBetween(precision, recall);
      RoundedIsNearest(num, den);
      assert F1(precision, recall) == RoundDiv(num, den);
    }
  }

  /** F1 lies between precision and recall, and the product of two shares fits in
      64 bits. */
  lemma F1IsBetween(precision: nat, recall: nat)
    requires precision < U32_LIMIT && recall < U32_LIMIT
    ensures Min(precision, recall) <= F1(precision, recall) <= Max(precision, recall)
    ensures precision <= BASIS_POINTS_PER_UNIT && recall <= BASIS_POINTS_PER_UNIT ==>
      2 * precision * recall < U64_LIMIT
  {
    if precision <= BASIS_POINTS_PER_UNIT && recall <= BASIS_POINTS_PER_UNIT {
      MulMono(2 * precision, recall, BASIS_POINTS_PER_UNIT);
    }
    if precision + recall > 0 {
      HarmonicBetween(precision, recall);
    }
  }

  lemma MulMono(k: nat, a: nat, b: nat)
    requires a <= b
    ensures k * a <= k * b
  {}

  /** The least position, counted from one, of a result in the truth. */
  function FirstRank<T(==)>(retrieved: seq<T>, truth: seq<T>): (rank: Option<nat>)
    ensures rank.Some? ==> 1 <= rank.value <= |retrieved| && retrieved[rank.value - 1] in truth
    ensures rank.Some? ==> forall i :: 0 <= i < rank.value - 1 ==> retrieved[i] !in truth
    ensures rank.None? ==> forall i :: 0 <= i < |retrieved| ==> retrieved[i] !in truth
  {
    if retrieved == [] then None
    else if retrieved[0] in truth then Some(1)
    else
      match FirstRank(retrieved[1..], truth)
      case Some(r) => Some(r + 1)
      case None => None
  }

  /** One query's ranked results and its truth. */
  type Run<T> = (seq<T>, seq<T>)

  function Reciprocal<T(==)>(run: Run<T>): nat {
    match FirstRank(run.0, run.1)
    case Some(rank) => RoundDiv(BASIS_POINTS_PER_UNIT, rank)
    case None => 0
  }

  function SumReciprocals<T(==)>(runs: seq<Run<T>>): nat {
    if runs == [] then 0 else SumReciprocals(runs[1..]) + Reciprocal(runs[0])
  }

  function Mrr<T(==)>(runs: seq<Run<T>>): Option<nat> {
    if runs == [] then None
    else
      var mean := RoundDiv(SumReciprocals(runs), |runs|);
      if mean < U32_LIMIT then Some(mean) else None
  }

  predicate HitAt<T(==)>(run: Run<T>, k: nat) {
    var rank := FirstRank(run.0, run.1);
    rank.Some? && rank.value <= k
  }

  function CountHits<T(==)>(runs: seq<Run<T>>, k: nat): (n: nat)
    ensures n <= |runs|
  {
    if runs == [] then 0 else CountHits(runs[1..], k) + if HitAt(runs[0], k) then 1 else 0
  }

  function AccAtK<T(==)>(runs: seq<Run<T>>, k: nat): Option<nat> {
    if runs == [] then None else Some(Ratio(CountHits(runs, k), |runs|))
  }

  lemma {:induction false} CountHitsMono<T>(runs: seq<Run<T>>, k: nat, l: nat)
    requires k <= l
    ensures CountHits(runs, k) <= CountHits(runs, l)
  {
    if runs != [] {
      CountHitsMono(runs[1..], k, l);
    }
  }

  /** Acc@k never falls as k grows. */
  lemma AccGrows<T>(runs: seq<Run<T>>, k: nat, l: nat)
    requires runs != [] && k <= l
    ensures AccAtK(runs, k).value <= AccAtK(runs, l).value <= BASIS_POINTS_PER_UNIT
  {
    CountHitsMono(runs, k, l);
    RatioOfPart(CountHits(runs, k), CountHits(runs, l), |runs|);
  }

  lemma ReciprocalBounds<T>(run: Run<T>, k: nat)
    requires FirstRank(run.0, run.1).Some? ==> FirstRank(run.0, run.1).value <= k
    ensures HitAt(run, 1) ==> Reciprocal(run) == BASIS_POINTS_PER_UNIT
    ensures Reciprocal(run) <= if HitAt(run, k) then BASIS_POINTS_PER_UNIT else 0
  {
    var rank := FirstRank(run.0, run.1);
    if rank.Some? {
      MulMono(BASIS_POINTS_PER_UNIT, 1, rank.value);
      RoundDivBetween(0, BASIS_POINTS_PER_UNIT, BASIS_POINTS_PER_UNIT, rank.value);
    }
  }

  lemma {:induction false} SumBetween<T>(runs: seq<Run<T>>, k: nat)
    requires forall i :: 0 <= i < |runs| && FirstRank(runs[i].0, runs[i].1).Some? ==>
      FirstRank(runs[i].0, runs[i].1).value <= k
    ensures CountHits(runs, 1) * BASIS_POINTS_PER_UNIT <= SumReciprocals(runs)
    ensures SumReciprocals(runs) <= CountHits(runs, k) * BASIS_POINTS_PER_UNIT
  {
    if runs != [] {
      SumBetween(runs[1..], k);
      ReciprocalBounds(runs[0], k);
    }
  }

  /** The mean reciprocal rank lies between Acc@1 and Acc@k, for every k at or
      above the largest first rank. */
  lemma MrrIsBetween<T>(runs: seq<Run<T>>, k: nat)
    requires runs != []
    requires forall i :: 0 <= i < |runs| && FirstRank(runs[i].0, runs[i].1).Some? ==>
      FirstRank(runs[i].0, runs[i].1).value <= k
    ensures Mrr(runs).Some?
    ensures AccAtK(runs, 1).value <= Mrr(runs).value <= AccAtK(runs, k).value
  {
    SumBetween(runs, k);
    var n := |runs|;
    var (one, all) := (CountHits(runs, 1) * BASIS_POINTS_PER_UNIT, CountHits(runs, k) * BASIS_POINTS_PER_UNIT);
    RoundDivMono(one, SumReciprocals(runs), n);
    RoundDivMono(SumReciprocals(runs), all, n);
    assert all <= BASIS_POINTS_PER_UNIT * n;
    assert 0 * n == 0;
    RoundDivBetween(0, all, BASIS_POINTS_PER_UNIT, n);
  }

  // ---- Cost per correct result.

  function CostPerCorrect(cost: nat, correct: nat): Option<nat> {
    if correct > 0 then Some(RoundDiv(cost, correct)) else None
  }
}

/**
  The two NDCG computations. The logarithm and the power of two are parameters with the properties that
  matter: the logarithm starts at 1 and does not fall, the power is 1 at zero and rises.
 */
module Ndcg {
  import opened Wrappers

  // ----- parameters -----

  predicate NoFall(lg: int -> real, m: int, n: int) {
    2 <= m <= n ==> lg(m) <= lg(n)
  }

  predicate Rises(pow: real -> real, x: real, y: real) {
    x < y ==> pow(x) < pow(y)
  }

  /** `math.log2` at whole numbers from 2 on. */
  ghost predicate Log2Like(lg: int -> real) {
    lg(2) == 1.0 && forall m, n :: NoFall(lg, m, n)
  }

  /** `2.0 ** rel`. */
  ghost predicate Pow2Like(pow: real -> real) {
    pow(0.0) == 1.0 && forall x, y :: Rises(pow, x, y)
  }

  // ----- sums -----

  function Sum(s: seq<real>): real {
    if s == [] then 0.0 else Sum(s[..|s| - 1]) + s[|s| - 1]
  }

  lemma SumMore(s: seq<real>, x: real)
    ensures Sum(s + [x]) == Sum(s) + x
  {
    assert (s + [x])[..|s|] == s;
  }

  lemma {:induction false} SumConcat(a: seq<real>, b: seq<real>)
    ensures Sum(a + b) == Sum(a) + Sum(b)
  {
    if b == [] {
      assert a + b == a;
    } else {
      SumConcat(a, b[..|b| - 1]);
      SumMore(a + b[..|b| - 1], b[|b| - 1]);
      assert a + b == a + b[..|b| - 1] + [b[|b| - 1]];
    }
  }

  /** Taking one element out of the middle. */
  function Without<T>(s: seq<T>, i: nat): seq<T>
    requires i < |s|
  {
    s[..i] + s[i + 1..]
  }

  lemma SplitAround<T>(s: seq<T>, i: nat)
    requires i < |s|
    ensures s == s[..i] + [s[i]] + s[i + 1..]
  {
  }

  lemma SumAround(a: seq<real>, x: real, b: seq<real>)
    ensures Sum(a + [x] + b) == Sum(a + b) + x
  {
    SumMore(a, x);
    SumConcat(a + [x], b);
    SumConcat(a, b);
  }

  lemma SumWithout(s: seq<real>, i: nat)
    requires i < |s|
    ensures Sum(s) == Sum(Without(s, i)) + s[i]
  {
    SplitAround(s, i);
    SumAround(s[..i], s[i], s[i + 1..]);
  }

  lemma MultisetWithout<T>(s: seq<T>, i: nat)
    requires i < |s|
    ensures multiset(s) == multiset(Without(s, i)) + multiset{s[i]}
  {
    SplitAround(s, i);
    assert multiset(s) == multiset(s[..i]) + multiset{s[i]} + multiset(s[i + 1..]);
  }

  // ----- sorting -----

  predicate Descending(s: seq<real>) {
    forall i, j :: 0 <= i <= j < |s| ==> s[i] >= s[j]
  }

  predicate NonNegative(s: seq<real>) {
    forall i :: 0 <= i < |s| ==> s[i] >= 0.0
  }

  function InsertDescending(x: real, s: seq<real>): (r: seq<real>)
    ensures |r| == |s| + 1
  {
    if s == [] || x >= s[0] then [x] + s else [s[0]] + InsertDescending(x, s[1..])
  }

  /** `sorted(values, reverse=True)`. */
  function SortDescending(s: seq<real>): (r: seq<real>)
    ensures |r| == |s|
  {
    if s == [] then [] else InsertDescending(s[0], SortDescending(s[1..]))
  }

  lemma {:induction false} InsertPermutes(x: real, s: seq<real>)
    ensures multiset(InsertDescending(x, s)) == multiset(s) + multiset{x}
  {
    if s != [] && x < s[0] {
      InsertPermutes(x, s[1..]);
      assert s == [s[0]] + s[1..];
    }
  }

  lemma {:induction false} SortPermutes(s: seq<real>)
    ensures multiset(SortDescending(s)) == multiset(s)
  {
    if s != [] {
      SortPermutes(s[1..]);
      InsertPermutes(s[0], SortDescending(s[1..]));
      assert s == [s[0]] + s[1..];
    }
  }

  lemma {:induction false} InsertIsDescending(x: real, s: seq<real>)
    requires Descending(s)
    ensures Descending(InsertDescending(x, s))
  {
    if s != [] && x < s[0] {
      var rest := InsertDescending(x, s[1..]);
      InsertIsDescending(x, s[1..]);
      InsertPermutes(x, s[1..]);
      forall j | 0 <= j < |rest|
        ensures s[0] >= rest[j]
      {
        assert rest[j] in multiset(rest);
        assert rest[j] in multiset(s[1..]) || rest[j] == x;
      }
    }
  }

  lemma {:induction false} SortIsDescending(s: seq<real>)
    ensures Descending(SortDescending(s))
  {
    if s != [] {
      SortIsDescending(s[1..]);
      InsertIsDescending(s[0], SortDescending(s[1..]));
    }
  }

  lemma SortKeepsElements(s: seq<real>, x: real)
    requires x in SortDescending(s)
    ensures x in s
  {
    SortPermutes(s);
    assert x in multiset(SortDescending(s));
  }

  // ----- the rearrangement inequality -----

  lemma LastIsTaken(m: seq<real>, front: seq<real>, last: real)
    requires multiset(m) <= multiset(front) + multiset{last} && !(multiset(m) <= multiset(front))
    ensures last in m && multiset(m) - multiset{last} <= multiset(front)
  {
  }

  lemma NotLonger(m: seq<real>, s: seq<real>)
    requires multiset(m) <= multiset(s)
    ensures |m| <= |s|
  {
    var rest := multiset(s) - multiset(m);
    assert multiset(s) == multiset(m) + rest;
    assert |multiset(s)| == |multiset(m)| + |rest|;
  }

  lemma FrontOfFront(s: seq<real>, j: nat)
    requires j < |s| && Descending(s)
    ensures s[..|s| - 1][..j] == s[..j] && Descending(s[..|s| - 1])
  {
  }

  lemma PrefixSum(s: seq<real>, k: nat)
    requires k < |s|
    ensures Sum(s[..k + 1]) == Sum(s[..k]) + s[k]
  {
    assert s[..k + 1] == s[..k] + [s[k]];
    SumMore(s[..k], s[k]);
  }

  /** One more element, no larger than any other, keeps the bound. */
  lemma OneMoreElement(m: seq<real>, i: nat, s: seq<real>, n: nat)
    requires i < |m| && Descending(s) && |m| <= |s| == n + 1 && m[i] == s[n]
    requires Sum(Without(m, i)) <= Sum(s[..n][..|m| - 1])
    ensures Sum(m) <= Sum(s[..|m|])
  {
    SumWithout(m, i);
    PrefixSum(s, |m| - 1);
    FrontOfFront(s, |m| - 1);
  }

  lemma SplitLast(m: seq<real>, s: seq<real>) returns (i: nat)
    requires s != [] && multiset(m) <= multiset(s) && !(multiset(m) <= multiset(s[..|s| - 1]))
    ensures i < |m| && m[i] == s[|s| - 1] && multiset(Without(m, i)) <= multiset(s[..|s| - 1])
  {
    var front, last := s[..|s| - 1], s[|s| - 1];
    assert s == front + [last];
    LastIsTaken(m, front, last);
    i :| 0 <= i < |m| && m[i] == last;
    MultisetWithout(m, i);
  }

  /** However some elements of a descending list are chosen, their sum is at most that of its first ones. */
  lemma {:induction false} FirstOnesAreLargest(m: seq<real>, s: seq<real>)
    requires Descending(s) && multiset(m) <= multiset(s)
    ensures |m| <= |s| && Sum(m) <= Sum(s[..|m|])
    decreases |s|
  {
    NotLonger(m, s);
    if s != [] {
      var front := s[..|s| - 1];
      FrontOfFront(s, 0);
      if multiset(m) <= multiset(front) {
        FirstOnesAreLargest(m, front);
        FrontOfFront(s, |m|);
      } else {
        var i := SplitLast(m, s);
        FirstOnesAreLargest(Without(m, i), front);
        OneMoreElement(m, i, s, |s| - 1);
      }
    }
  }

  /** A sum with weights by position. */
  function Weighted(w: int -> real, s: seq<real>): real {
    if s == [] then 0.0 else Weighted(w, s[..|s| - 1]) + w(|s|) * s[|s| - 1]
  }

  ghost predicate Falling(w: int -> real) {
    forall i, j :: 1 <= i <= j ==> w(i) >= w(j) && w(j) > 0.0
  }

  /** The first sequence has no smaller total in any prefix of the second's length. */
  ghost predicate Dominates(b: seq<real>, a: seq<real>) {
    |b| == |a| && forall j :: 0 <= j <= |a| ==> Sum(a[..j]) <= Sum(b[..j])
  }

  /**
    Summation by parts: the lead in the prefix sums, at the weight of the last position, is a lead in the weighted
    sum.
   */
  lemma {:induction false} DominanceIsWeighted(w: int -> real, a: seq<real>, b: seq<real>)
    requires Falling(w) && Dominates(b, a)
    ensures a != [] ==> Weighted(w, b) - Weighted(w, a) >= w(|a|) * (Sum(b) - Sum(a))
    ensures Weighted(w, a) <= Weighted(w, b)
  {
    assert a[..|a|] == a && b[..|b|] == b;
    if |a| == 1 {
      assert a[..0] == [] && b[..0] == [];
    } else if |a| > 1 {
      var n := |a| - 1;
      var a', b' := a[..n], b[..n];
      forall j | 0 <= j <= n
        ensures Sum(a'[..j]) <= Sum(b'[..j])
      {
        assert a'[..j] == a[..j] && b'[..j] == b[..j];
      }
      DominanceIsWeighted(w, a', b');
      PartsStep(w(n), w(n + 1), Sum(a'), Sum(b'), a[n], b[n], Weighted(w, a'), Weighted(w, b'));
    }
    if a != [] {
      LeadIsPositive(w(|a|), Sum(b) - Sum(a));
    }
  }

  lemma LeadIsPositive(x: real, lead: real)
    requires x > 0.0 && lead >= 0.0
    ensures x * lead >= 0.0
  {
  }

  lemma ProductIsPositive(x: real, y: real)
    requires x > 0.0 && y > 0.0
    ensures x * y > 0.0
  {
  }

  lemma PartsStep(before: real, now: real, a: real, b: real, x: real, y: real, wa: real, wb: real)
    requires before >= now > 0.0 && b >= a && wb - wa >= before * (b - a)
    ensures (wb + now * y) - (wa + now * x) >= now * ((b + y) - (a + x))
  {
    if b > a {
      ProductGrows(now, before, b - a);
    }
    assert now * ((b + y) - (a + x)) == now * (b - a) + (now * y - now * x);
  }

  // ----- discounts -----

  /** The weight of position `i`: `1 / log2(i + 1)`. */
  function Discount(lg: int -> real): int -> real {
    i => if lg(i + 1) > 0.0 then 1.0 / lg(i + 1) else 1.0
  }

  lemma ProductGrows(x: real, y: real, f: real)
    requires x <= y && f > 0.0
    ensures x * f <= y * f
    ensures x < y ==> x * f < y * f
  {
  }

  lemma ReciprocalFalls(x: real, y: real)
    requires 0.0 < x <= y
    ensures 0.0 < 1.0 / y <= 1.0 / x
  {
    var a, b := 1.0 / x, 1.0 / y;
    assert a * x == 1.0 && b * y == 1.0;
    if b <= 0.0 {
      ProductGrows(b, 0.0, y);
    } else if b > a {
      ProductGrows(x, y, b);
      ProductGrows(a, b, x);
    }
  }

  lemma DiscountFalls(lg: int -> real)
    requires Log2Like(lg)
    ensures Falling(Discount(lg)) && Discount(lg)(1) == 1.0
  {
    var w := Discount(lg);
    forall i, j | 1 <= i <= j
      ensures w(i) >= w(j) && w(j) > 0.0
    {
      assert NoFall(lg, 2, i + 1) && NoFall(lg, i + 1, j + 1);
      ReciprocalFalls(lg(i + 1), lg(j + 1));
    }
  }

  lemma DivideIsMultiply(x: real, d: real)
    requires d > 0.0
    ensures x / d == (1.0 / d) * x
  {
    assert (1.0 / d) * d == 1.0;
    assert ((1.0 / d) * x) * d == x;
  }

  // ----- the list version -----

  /** `labels[:k]`. */
  function Top<T>(s: seq<T>, k: int): seq<T> {
    s[..Bound(k, |s|)]
  }

  /** One round of the accumulating loops. */
  lemma OneMorePosition(lg: int -> real, s: seq<real>, i: nat)
    requires Log2Like(lg) && i < |s|
    ensures lg(i + 2) >= 1.0
    ensures Weighted(Discount(lg), s[..i + 1]) == Weighted(Discount(lg), s[..i]) + s[i] / lg(i + 2)
  {
    assert s[..i + 1][..i] == s[..i];
    assert NoFall(lg, 2, i + 2);
    DivideIsMultiply(s[i], lg(i + 2));
  }

  /** `compute_dcg` of the list version. */
  method ComputeDcg(labels: seq<real>, k: int, lg: int -> real) returns (dcg: real)
    requires Log2Like(lg)
    ensures dcg == Weighted(Discount(lg), Top(labels, k))
  {
    var top := Top(labels, k);
    dcg := 0.0;
    for i := 0 to |top|
      invariant dcg == Weighted(Discount(lg), top[..i])
    {
      OneMorePosition(lg, top, i);
      if i == 0 {
        dcg := dcg + top[i];
      } else {
        dcg := dcg + top[i] / lg(i + 2);
      }
    }
    assert top[..|top|] == top;
  }

  lemma PrefixIsPart(s: seq<real>, n: nat, j: nat)
    requires j <= n <= |s|
    ensures multiset(s[..n][..j]) <= multiset(s)
  {
    assert s == s[..n][..j] + s[j..];
    assert multiset(s) == multiset(s[..n][..j]) + multiset(s[j..]);
  }

  /** The DCG of a list is at most that of the same list in descending order, for every `k` and every labels. */
  lemma ListDcgAtMostIdeal(labels: seq<real>, k: int, lg: int -> real)
    requires Log2Like(lg)
    ensures Weighted(Discount(lg), Top(labels, k)) <= Weighted(Discount(lg), Top(SortDescending(labels), k))
  {
    var ideal := SortDescending(labels);
    var n := Bound(k, |labels|);
    SortIsDescending(labels);
    SortPermutes(labels);
    DiscountFalls(lg);
    forall j | 0 <= j <= n
      ensures Sum(labels[..n][..j]) <= Sum(ideal[..n][..j])
    {
      PrefixIsPart(labels, n, j);
      assert ideal[..n][..j] == ideal[..j];
      FirstOnesAreLargest(labels[..n][..j], ideal);
    }
    DominanceIsWeighted(Discount(lg), labels[..n], ideal[..n]);
  }

  lemma SelfQuotient(x: real)
    requires x > 0.0
    ensures x / x == 1.0
  {
    var q := x / x;
    assert q * x == x;
    if q > 1.0 {
      ProductGrows(1.0, q, x);
    } else if q < 1.0 {
      ProductGrows(q, 1.0, x);
    }
  }

  lemma RatioAtMostOne(x: real, y: real)
    requires x <= y && y > 0.0
    ensures x / y <= 1.0
  {
    var q := x / y;
    assert q * y == x;
    if q > 1.0 {
      ProductGrows(1.0, q, y);
    }
  }

  lemma {:induction false} SortedIsFixed(s: seq<real>)
    requires Descending(s)
    ensures SortDescending(s) == s
  {
    if s != [] {
      SortedIsFixed(s[1..]);
    }
  }

  lemma {:induction false} WeightedIsNonNegative(w: int -> real, s: seq<real>)
    requires Falling(w) && NonNegative(s)
    ensures Weighted(w, s) >= 0.0
  {
    if s != [] {
      WeightedIsNonNegative(w, s[..|s| - 1]);
      LeadIsPositive(w(|s|), s[|s| - 1]);
    }
  }

  lemma DcgIsNonNegative(labels: seq<real>, k: int, lg: int -> real)
    requires Log2Like(lg) && NonNegative(labels)
    ensures Weighted(Discount(lg), Top(labels, k)) >= 0.0
  {
    DiscountFalls(lg);
    WeightedIsNonNegative(Discount(lg), Top(labels, k));
  }

  lemma QuotientIsNonNegative(x: real, y: real)
    requires x >= 0.0 && y > 0.0
    ensures x / y >= 0.0
  {
  }

  /** The quotient, where there is one. */
  function ListNdcg(labels: seq<real>, k: int, lg: int -> real): real {
    var dcg, idcg := Weighted(Discount(lg), Top(labels, k)), Weighted(Discount(lg), Top(SortDescending(labels), k));
    if idcg <= 0.0 then 1.0 else dcg / idcg
  }

  /** `compute_ndcg` of the list version: never above 1, and its last alternative is never taken. */
  method ComputeNdcg(labels: seq<real>, k: int, lg: int -> real) returns (ndcg: real)
    requires Log2Like(lg)
    ensures ndcg <= 1.0 && (NonNegative(labels) ==> ndcg >= 0.0) && (Descending(labels) ==> ndcg == 1.0)
    ensures ndcg == ListNdcg(labels, k, lg)
  {
    var dcg := ComputeDcg(labels, k, lg);
    var idcg := ComputeDcg(SortDescending(labels), k, lg);
    ListDcgAtMostIdeal(labels, k, lg);
    if idcg <= 0.0 {
      if dcg <= 0.0 {
        return 1.0;
      }
      assert false;
    }
    RatioAtMostOne(dcg, idcg);
    ndcg := dcg / idcg;
    if NonNegative(labels) {
      DcgIsNonNegative(labels, k, lg);
      QuotientIsNonNegative(dcg, idcg);
    }
    if Descending(labels) {
      SortedIsFixed(labels);
      SelfQuotient(dcg);
    }
  }

  // ----- the retrieval score -----

  /** The position of the first relevant label, or the end. */
  function FirstRelevant(labels: seq<real>): (i: nat)
    ensures i <= |labels| && (forall j :: 0 <= j < i ==> labels[j] <= 0.0) && (i < |labels| ==> labels[i] > 0.0)
  {
    if labels == [] || labels[0] > 0.0 then 0 else 1 + FirstRelevant(labels[1..])
  }

  /** One over the rank of the first relevant label. */
  function ReciprocalRank(labels: seq<real>): real {
    var i := FirstRelevant(labels);
    if i < |labels| then 1.0 / (i + 1) as real else 0.0
  }

  /** `compute_mrr`. */
  method ComputeMrr(labels: seq<real>) returns (mrr: real)
    ensures 0.0 <= mrr <= 1.0
    ensures mrr == ReciprocalRank(labels)
  {
    for i := 0 to |labels|
      invariant i <= FirstRelevant(labels)
    {
      if labels[i] > 0.0 {
        ReciprocalFalls(1.0, (i + 1) as real);
        return 1.0 / (i + 1) as real;
      }
    }
    return 0.0;
  }

  /** How many labels are relevant. */
  function Relevant(labels: seq<real>): (n: nat)
    ensures n <= |labels|
  {
    if labels == [] then 0
    else Relevant(labels[..|labels| - 1]) + if labels[|labels| - 1] > 0.0 then 1 else 0
  }

  /** The relevant share of the first `k`. */
  function Precision(labels: seq<real>, k: int): real {
    if k <= 0 then 0.0 else Relevant(Top(labels, k)) as real / k as real
  }

  /** `compute_precision_at_k`. */
  method ComputePrecisionAtK(labels: seq<real>, k: int) returns (precision: real)
    ensures 0.0 <= precision <= 1.0
    ensures precision == Precision(labels, k)
  {
    if k <= 0 {
      return 0.0;
    }
    var relevant := Relevant(Top(labels, k));
    QuotientIsNonNegative(relevant as real, k as real);
    RatioAtMostOne(relevant as real, k as real);
    return relevant as real / k as real;
  }

  /** `round(x, 3)`. */
  function Round3(x: real): (r: real)
    ensures x <= 1.0 ==> r <= 1.0
    ensures x >= 0.0 ==> r >= 0.0
    ensures -0.0005 <= r - x <= 0.0005
  {
    Round(x * 1000.0) as real / 1000.0
  }

  lemma RoundsBelowZero(x: real)
    ensures Round3(x) < 0.0 <==> x < -0.0005
  {
  }

  datatype Relevance = Relevance(passed: bool, score: real, mrr: real, ndcg: real, precision: real)

  function MetricSum(labels: seq<real>, k: int, lg: int -> real): real {
    ReciprocalRank(labels) + ListNdcg(labels, k, lg) + Precision(labels, Min(k, |labels|))
  }

  /** The score of a ranked list: the rounded mean of its three metrics. */
  function RelevanceScore(labels: seq<real>, k: int, lg: int -> real): real {
    Round3(MetricSum(labels, k, lg) / 3.0)
  }

  /** `evaluate_retrieval_relevance`; the result record refuses a score outside [0, 1], which only happens below. */
  method EvaluateRetrievalRelevance(labels: seq<real>, k: int, minMrr: real, minNdcg: real, minPrecision: real,
          lg: int -> real)
    returns (r: Option<Relevance>)
    requires Log2Like(lg)
    ensures RelevanceScore(labels, k, lg) <= 1.0
    ensures r.None? <==> MetricSum(labels, k, lg) < -0.0015
    ensures NonNegative(labels) ==> r.Some?
    ensures r.Some? ==>
              && 0.0 <= r.value.score == RelevanceScore(labels, k, lg)
              && r.value.mrr == ReciprocalRank(labels) && r.value.ndcg == ListNdcg(labels, k, lg)
              && r.value.precision == Precision(labels, Min(k, |labels|))
              && r.value.passed
                == (r.value.mrr >= minMrr && r.value.ndcg >= minNdcg && r.value.precision >= minPrecision)
    ensures labels != [] && NonNegative(labels) && Descending(labels) && labels[0] > 0.0 ==>
                r.value.mrr == r.value.ndcg == 1.0
  {
    var mrr := ComputeMrr(labels);
    var ndcg := ComputeNdcg(labels, k, lg);
    var precision := ComputePrecisionAtK(labels, Min(k, |labels|));
    var score := Round3((mrr + ndcg + precision) / 3.0);
    RoundsBelowZero((mrr + ndcg + precision) / 3.0);
    if score < 0.0 || score > 1.0 {
      return None;
    }
    return Some(Relevance(mrr >= minMrr && ndcg >= minNdcg && precision >= minPrecision, score, mrr, ndcg, precision));
  }

  /** There are refusals: ten below zero ahead of one relevant label. */
  lemma NegativeLabelsAreRefused(lg: int -> real)
    requires Log2Like(lg)
    ensures MetricSum([-10.0, 1.0], 1, lg) == -9.5 && RelevanceScore([-10.0, 1.0], 1, lg) < 0.0
  {
    var labels := [-10.0, 1.0];
    DiscountFalls(lg);
    assert labels[1..] == [1.0];
    assert SortDescending([1.0]) == [1.0];
    assert SortDescending(labels) == [1.0, -10.0];
    assert [1.0, -10.0][..1] == [1.0] && labels[..1] == [-10.0];
    assert Weighted(Discount(lg), []) == 0.0;
    assert ListNdcg(labels, 1, lg) == -10.0;
    assert FirstRelevant([1.0]) == 0 && FirstRelevant(labels) == 1;
    assert Relevant([]) == 0 && Relevant([-10.0]) == 0;
    RoundsBelowZero(-9.5 / 3.0);
  }

  // ----- the version over retrieved documents -----

  datatype Scored = Scored(doc: string, score: real)

  /** A dictionary of relevance scores, in insertion order. */
  predicate DistinctDocs(scores: seq<Scored>) {
    forall i, j :: 0 <= i < j < |scores| ==> scores[i].doc != scores[j].doc
  }

  predicate Distinct(docs: seq<string>) {
    forall i, j :: 0 <= i < j < |docs| ==> docs[i] != docs[j]
  }

  /** `relevance_scores.get(doc, 0.0)`. */
  function Score(scores: seq<Scored>, doc: string): real {
    if scores == [] then 0.0
    else if scores[|scores| - 1].doc == doc then scores[|scores| - 1].score
    else Score(scores[..|scores| - 1], doc)
  }

  function Values(scores: seq<Scored>): (r: seq<real>)
    ensures |r| == |scores|
  {
    seq(|scores|, i requires 0 <= i < |scores| => scores[i].score)
  }

  function Gains(s: seq<real>, pow: real -> real): (r: seq<real>)
    ensures |r| == |s| && forall i :: 0 <= i < |s| ==> r[i] == pow(s[i]) - 1.0
  {
    seq(|s|, i requires 0 <= i < |s| => pow(s[i]) - 1.0)
  }

  /** The gains of retrieved documents, in their order. */
  function DocGains(docs: seq<string>, scores: seq<Scored>, pow: real -> real): (r: seq<real>)
    ensures |r| == |docs| && forall i :: 0 <= i < |docs| ==> r[i] == pow(Score(scores, docs[i])) - 1.0
  {
    seq(|docs|, i requires 0 <= i < |docs| => pow(Score(scores, docs[i])) - 1.0)
  }

  function Zeros(n: nat): (r: seq<real>)
    ensures |r| == n && forall i :: 0 <= i < n ==> r[i] == 0.0
  {
    seq(n, i => 0.0)
  }

  // ----- sorting and gains -----

  lemma GainsCons(x: real, s: seq<real>, pow: real -> real)
    ensures Gains([x] + s, pow) == [pow(x) - 1.0] + Gains(s, pow)
  {
  }

  lemma GainsTail(s: seq<real>, pow: real -> real)
    requires s != []
    ensures Gains(s, pow)[0] == pow(s[0]) - 1.0 && Gains(s, pow)[1..] == Gains(s[1..], pow)
  {
  }

  lemma PowOrder(pow: real -> real, x: real, y: real)
    requires Pow2Like(pow)
    ensures pow(x) - 1.0 >= pow(y) - 1.0 <==> x >= y
  {
    assert Rises(pow, x, y) && Rises(pow, y, x);
  }

  /** Sorting by score and sorting by gain is the same. */
  lemma {:induction false} GainsInsert(x: real, s: seq<real>, pow: real -> real)
    requires Pow2Like(pow)
    ensures Gains(InsertDescending(x, s), pow) == InsertDescending(pow(x) - 1.0, Gains(s, pow))
  {
    if s == [] {
      GainsCons(x, s, pow);
    } else {
      GainsTail(s, pow);
      PowOrder(pow, x, s[0]);
      if x >= s[0] {
        GainsCons(x, s, pow);
      } else {
        GainsInsert(x, s[1..], pow);
        GainsCons(s[0], InsertDescending(x, s[1..]), pow);
      }
    }
  }

  lemma {:induction false} GainsSort(s: seq<real>, pow: real -> real)
    requires Pow2Like(pow)
    ensures Gains(SortDescending(s), pow) == SortDescending(Gains(s, pow))
  {
    if s != [] {
      GainsTail(s, pow);
      GainsSort(s[1..], pow);
      GainsInsert(s[0], SortDescending(s[1..]), pow);
    }
  }

  // ----- distinct documents choose distinct scores -----

  lemma {:induction false} ScoreAt(scores: seq<Scored>, i: nat)
    requires i < |scores| && DistinctDocs(scores)
    ensures Score(scores, scores[i].doc) == scores[i].score
  {
    if i < |scores| - 1 {
      ScoreAt(scores[..|scores| - 1], i);
    }
  }

  lemma {:induction false} ScoreMissing(scores: seq<Scored>, doc: string)
    requires forall i :: 0 <= i < |scores| ==> scores[i].doc != doc
    ensures Score(scores, doc) == 0.0
  {
    if scores != [] {
      ScoreMissing(scores[..|scores| - 1], doc);
    }
  }

  /** Taking one document's score out leaves the others' as they were. */
  lemma {:induction false} ScoreWithout(scores: seq<Scored>, i: nat, doc: string)
    requires i < |scores| && scores[i].doc != doc
    ensures Score(Without(scores, i), doc) == Score(scores, doc)
  {
    var n := |scores| - 1;
    if i == n {
      assert Without(scores, i) == scores[..n];
    } else {
      ScoreWithout(scores[..n], i, doc);
      assert Without(scores, i)[..n - 1] == Without(scores[..n], i);
    }
  }

  lemma GainsWithout(scores: seq<Scored>, i: nat, pow: real -> real)
    requires i < |scores|
    ensures Gains(Values(Without(scores, i)), pow) == Without(Gains(Values(scores), pow), i)
  {
  }

  lemma ValuesWithout(scores: seq<Scored>, i: nat, pow: real -> real)
    requires i < |scores|
    ensures multiset(Gains(Values(scores), pow))
         == multiset(Gains(Values(Without(scores, i)), pow)) + multiset{pow(scores[i].score) - 1.0}
  {
    var g := Gains(Values(scores), pow);
    GainsWithout(scores, i, pow);
    MultisetWithout(g, i);
  }

  lemma ZerosMore(n: nat)
    ensures multiset(Zeros(n + 1)) == multiset(Zeros(n)) + multiset{0.0}
  {
    assert Zeros(n + 1) == Zeros(n) + [0.0];
  }

  /** The last document has a score: taking that score out leaves the scores of the documents before it. */
  lemma ChosenFound(docs: seq<string>, scores: seq<Scored>, i: nat, pow: real -> real)
    requires DistinctDocs(scores) && docs != [] && Distinct(docs)
    requires i < |scores| && scores[i].doc == docs[|docs| - 1]
    ensures DocGains(docs, scores, pow)
         == DocGains(docs[..|docs| - 1], Without(scores, i), pow) + [pow(scores[i].score) - 1.0]
  {
    ScoreAt(scores, i);
    forall j | 0 <= j < |docs| - 1
      ensures Score(Without(scores, i), docs[j]) == Score(scores, docs[j])
    {
      ScoreWithout(scores, i, docs[j]);
    }
  }

  /** The last document has no score: its gain is zero. */
  lemma ChosenMissing(docs: seq<string>, scores: seq<Scored>, pow: real -> real)
    requires Pow2Like(pow) && docs != [] && forall i :: 0 <= i < |scores| ==> scores[i].doc != docs[|docs| - 1]
    ensures DocGains(docs, scores, pow) == DocGains(docs[..|docs| - 1], scores, pow) + [0.0]
  {
    ScoreMissing(scores, docs[|docs| - 1]);
  }

  /** What remains when documents are dropped. */
  lemma FewerDistinct(docs: seq<string>, scores: seq<Scored>, i: nat)
    requires DistinctDocs(scores) && Distinct(docs) && docs != [] && i < |scores|
    ensures Distinct(docs[..|docs| - 1]) && DistinctDocs(Without(scores, i))
  {
  }

  lemma SubsetMore(a: multiset<real>, b: multiset<real>, z: multiset<real>, x: real, spare: multiset<real>)
    requires a <= b + z
    ensures a + multiset{x} <= (b + multiset{x}) + (z + spare)
    ensures a + spare <= b + (z + spare)
  {
  }

  /** The gains of distinct documents are some of the gains of the scores, and zeros. */
  lemma {:induction false} GainsAreChosen(docs: seq<string>, scores: seq<Scored>, pow: real -> real)
    requires Pow2Like(pow) && DistinctDocs(scores) && Distinct(docs)
    ensures multiset(DocGains(docs, scores, pow)) <= multiset(Gains(Values(scores), pow)) + multiset(Zeros(|docs|))
    decreases |docs|
  {
    if docs != [] {
      var n := |docs| - 1;
      ZerosMore(n);
      if i :| 0 <= i < |scores| && scores[i].doc == docs[n] {
        FewerDistinct(docs, scores, i);
        ChosenFound(docs, scores, i, pow);
        ValuesWithout(scores, i, pow);
        GainsAreChosen(docs[..n], Without(scores, i), pow);
        SubsetMore(multiset(DocGains(docs[..n], Without(scores, i), pow)),
          multiset(Gains(Values(Without(scores, i)), pow)),
          multiset(Zeros(n)), pow(scores[i].score) - 1.0, multiset{0.0});
      } else {
        ChosenMissing(docs, scores, pow);
        GainsAreChosen(docs[..n], scores, pow);
        SubsetMore(multiset(DocGains(docs[..n], scores, pow)), multiset(Gains(Values(scores), pow)),
          multiset(Zeros(n)), 0.0, multiset{0.0});
      }
    }
  }

  // ----- the ideal order, padded -----

  /** No negative score among the `k` best. */
  predicate IdealNonNegative(scores: seq<Scored>, k: int) {
    NonNegative(Top(SortDescending(Values(scores)), k))
  }

  /** How many elements at the front are not negative. */
  function Lead(s: seq<real>): (c: nat)
    ensures c <= |s| && (forall i :: 0 <= i < c ==> s[i] >= 0.0) && (c < |s| ==> s[c] < 0.0)
  {
    if s == [] || s[0] < 0.0 then 0 else 1 + Lead(s[1..])
  }

  /** A descending list with zeros where they belong. */
  function WithZeros(s: seq<real>, n: nat): (r: seq<real>)
    ensures |r| == |s| + n
  {
    s[..Lead(s)] + Zeros(n) + s[Lead(s)..]
  }

  lemma WithZerosIsDescending(s: seq<real>, n: nat)
    requires Descending(s)
    ensures Descending(WithZeros(s, n))
  {
    var r, c := WithZeros(s, n), Lead(s);
    assert forall i :: 0 <= i < c ==> r[i] == s[i] && r[i] >= 0.0;
    assert forall i :: c <= i < c + n ==> r[i] == 0.0;
    assert forall i :: c + n <= i < |r| ==> r[i] == s[i - n] && r[i] <= s[c];
  }

  lemma WithZerosElements(s: seq<real>, n: nat)
    ensures multiset(WithZeros(s, n)) == multiset(s) + multiset(Zeros(n))
  {
    assert s == s[..Lead(s)] + s[Lead(s)..];
    assert multiset(s) == multiset(s[..Lead(s)]) + multiset(s[Lead(s)..]);
  }

  /** The ideal gains, with zeros for documents without a score. */
  function Padded(scores: seq<Scored>, n: nat, pow: real -> real): (r: seq<real>)
    ensures |r| == |scores| + n
  {
    WithZeros(Gains(SortDescending(Values(scores)), pow), n)
  }

  lemma PaddedIsDescending(scores: seq<Scored>, n: nat, pow: real -> real)
    requires Pow2Like(pow)
    ensures Descending(Padded(scores, n, pow))
    ensures multiset(Padded(scores, n, pow)) == multiset(Gains(Values(scores), pow)) + multiset(Zeros(n))
  {
    var g := Gains(Values(scores), pow);
    GainsSort(Values(scores), pow);
    SortIsDescending(g);
    SortPermutes(g);
    WithZerosIsDescending(SortDescending(g), n);
    WithZerosElements(SortDescending(g), n);
  }

  /** A gain is negative exactly when its score is. */
  lemma GainSign(s: seq<real>, i: nat, pow: real -> real)
    requires Pow2Like(pow) && i < |s|
    ensures Gains(s, pow)[i] < 0.0 <==> s[i] < 0.0
  {
    PowOrder(pow, s[i], 0.0);
  }

  lemma GainsLead(s: seq<real>, k: int, pow: real -> real)
    requires Pow2Like(pow) && NonNegative(Top(s, k))
    ensures Lead(Gains(s, pow)) >= Bound(k, |s|)
  {
    forall i | 0 <= i < Bound(k, |s|)
      ensures Gains(s, pow)[i] >= 0.0
    {
      GainSign(s, i, pow);
      assert Top(s, k)[i] == s[i];
    }
  }

  lemma {:induction false} ZerosAddNothing(w: int -> real, s: seq<real>, n: nat)
    ensures Weighted(w, s + Zeros(n)) == Weighted(w, s)
  {
    if n == 0 {
      assert s + Zeros(n) == s;
    } else {
      ZerosAddNothing(w, s, n - 1);
      assert (s + Zeros(n))[..|s| + n - 1] == s + Zeros(n - 1);
    }
  }

  lemma {:induction false} LongerIsNotLess(w: int -> real, s: seq<real>, a: nat, b: nat)
    requires Falling(w) && a <= b <= |s| && forall i :: 0 <= i < b ==> s[i] >= 0.0
    ensures Weighted(w, s[..a]) <= Weighted(w, s[..b])
    decreases b
  {
    if a < b {
      LongerIsNotLess(w, s, a, b - 1);
      assert s[..b][..b - 1] == s[..b - 1];
      LeadIsPositive(w(b), s[b - 1]);
    }
  }

  lemma WithZerosShort(s: seq<real>, n: nat)
    requires n <= Lead(s)
    ensures WithZeros(s, n)[..n] == s[..n]
  {
  }

  lemma WithZerosLong(s: seq<real>, n: nat)
    requires Lead(s) == |s| <= n
    ensures WithZeros(s, n)[..n] == s + Zeros(n - |s|)
  {
    WholeWithZeros(s, n);
    PrefixOfConcat(s, Zeros(n), n);
    ZerosPrefix(n, n - |s|);
  }

  lemma WholeWithZeros(s: seq<real>, n: nat)
    requires Lead(s) == |s|
    ensures WithZeros(s, n) == s + Zeros(n)
  {
    assert s[..|s|] == s;
  }

  lemma PrefixOfConcat(a: seq<real>, b: seq<real>, n: nat)
    requires |a| <= n <= |a| + |b|
    ensures (a + b)[..n] == a + b[..n - |a|]
  {
  }

  lemma ZerosPrefix(n: nat, k: nat)
    requires k <= n
    ensures Zeros(n)[..k] == Zeros(k)
  {
  }

  lemma WithZerosPrefix(w: int -> real, s: seq<real>, n: nat, m: nat)
    requires Falling(w) && m <= Lead(s) && (n <= m || m == |s|)
    ensures Weighted(w, WithZeros(s, n)[..n]) <= Weighted(w, s[..m])
  {
    if n <= m {
      WithZerosShort(s, n);
      LongerIsNotLess(w, s, n, m);
    } else {
      WithZerosLong(s, n);
      ZerosAddNothing(w, s, n - m);
      assert s[..m] == s;
    }
  }

  /** No more positions than `k` of the padded ideal are worth at most the ideal's first `k`. */
  lemma PaddedPrefix(w: int -> real, scores: seq<Scored>, n: nat, k: int, pow: real -> real)
    requires Falling(w) && Pow2Like(pow) && IdealNonNegative(scores, k) && n <= k
    ensures Weighted(w, Padded(scores, n, pow)[..n]) <= Weighted(w, Gains(Top(SortDescending(Values(scores)), k), pow))
  {
    var sorted := SortDescending(Values(scores));
    var ideal, m := Gains(sorted, pow), Bound(k, |sorted|);
    assert Gains(Top(sorted, k), pow) == ideal[..m];
    GainsLead(sorted, k, pow);
    WithZerosPrefix(w, ideal, n, m);
  }

  /** The DCG of the retrieved documents at `k`. */
  function DocDcg(docs: seq<string>, scores: seq<Scored>, k: int, lg: int -> real, pow: real -> real): real {
    Weighted(Discount(lg), DocGains(Top(docs, k), scores, pow))
  }

  /** The ideal DCG of the scores at `k`. */
  function IdealDcg(scores: seq<Scored>, k: int, lg: int -> real, pow: real -> real): real {
    Weighted(Discount(lg), Gains(Top(SortDescending(Values(scores)), k), pow))
  }

  lemma PaddedDominates(docs: seq<string>, scores: seq<Scored>, pow: real -> real)
    requires Pow2Like(pow) && DistinctDocs(scores) && Distinct(docs)
    ensures Dominates(Padded(scores, |docs|, pow)[..|docs|], DocGains(docs, scores, pow))
  {
    var g, p := DocGains(docs, scores, pow), Padded(scores, |docs|, pow);
    GainsAreChosen(docs, scores, pow);
    PaddedIsDescending(scores, |docs|, pow);
    forall j | 0 <= j <= |g|
      ensures Sum(g[..j]) <= Sum(p[..|docs|][..j])
    {
      assert g == g[..j] + g[j..];
      assert multiset(g) == multiset(g[..j]) + multiset(g[j..]);
      FirstOnesAreLargest(g[..j], p);
      assert p[..|docs|][..j] == p[..j];
    }
  }

  /** Distinct documents, and no negative score among the `k` best: the DCG is at most the ideal one. */
  lemma DocDcgAtMostIdeal(docs: seq<string>, scores: seq<Scored>, k: int, lg: int -> real, pow: real -> real)
    requires Log2Like(lg) && Pow2Like(pow) && k > 0
    requires DistinctDocs(scores) && IdealNonNegative(scores, k) && Distinct(Top(docs, k))
    ensures DocDcg(docs, scores, k, lg, pow) <= IdealDcg(scores, k, lg, pow)
  {
    var top := Top(docs, k);
    DiscountFalls(lg);
    PaddedDominates(top, scores, pow);
    DominanceIsWeighted(Discount(lg), DocGains(top, scores, pow), Padded(scores, |top|, pow)[..|top|]);
    PaddedPrefix(Discount(lg), scores, |top|, k, pow);
  }

  // ----- the conditions are needed -----

  /** The score 1 for each of the documents. */
  function AllOnes(docs: seq<string>): (r: seq<Scored>) {
    if docs == [] then []
    else
      var n := |docs| - 1;
      var r := AllOnes(docs[..n]);
      if docs[n] in docs[..n] then r else r + [Scored(docs[n], 1.0)]
  }

  lemma {:induction false} AllOnesDocs(docs: seq<string>)
    ensures forall i :: 0 <= i < |AllOnes(docs)| ==> AllOnes(docs)[i].score == 1.0 && AllOnes(docs)[i].doc in docs
    ensures DistinctDocs(AllOnes(docs)) && |AllOnes(docs)| <= |docs|
    ensures !Distinct(docs) ==> |AllOnes(docs)| < |docs|
  {
    if docs != [] {
      var n := |docs| - 1;
      AllOnesDocs(docs[..n]);
      if docs[n] !in docs[..n] && !Distinct(docs) {
        assert !Distinct(docs[..n]);
      }
    }
  }

  lemma {:induction false} AllOnesScore(docs: seq<string>, i: nat)
    requires i < |docs|
    ensures Score(AllOnes(docs), docs[i]) == 1.0
  {
    var n := |docs| - 1;
    if i < n {
      AllOnesScore(docs[..n], i);
    } else if j :| 0 <= j < n && docs[j] == docs[n] {
      AllOnesScore(docs[..n], j);
    }
  }

  lemma {:induction false} AllOnesIsNotEmpty(docs: seq<string>)
    requires docs != []
    ensures AllOnes(docs) != []
  {
    if |docs| > 1 {
      AllOnesIsNotEmpty(docs[..|docs| - 1]);
    }
  }

  lemma {:induction false} SameGainLonger(w: int -> real, x: real, a: seq<real>, b: seq<real>)
    requires Falling(w) && x > 0.0 && |a| < |b|
    requires (forall i :: 0 <= i < |a| ==> a[i] == x) && (forall i :: 0 <= i < |b| ==> b[i] == x)
    ensures Weighted(w, a) < Weighted(w, b)
    decreases |b|
  {
    var n := |b| - 1;
    assert w(n + 1) >= w(n + 1) > 0.0;
    ProductIsPositive(w(n + 1), x);
    assert b[n] == x;
    if |a| < n {
      SameGainLonger(w, x, a, b[..n]);
    } else {
      assert a == b[..n];
    }
  }

  /** Repeated documents in the first `k` let some scores give more than the ideal. */
  lemma RepeatsExceed(docs: seq<string>, k: int, lg: int -> real, pow: real -> real)
    requires Log2Like(lg) && Pow2Like(pow) && k > 0 && !Distinct(Top(docs, k))
    ensures var scores := AllOnes(Top(docs, k));
            && DistinctDocs(scores) && IdealNonNegative(scores, k) && IdealDcg(scores, k, lg, pow) > 0.0
            && DocDcg(docs, scores, k, lg, pow) > IdealDcg(scores, k, lg, pow)
  {
    var top := Top(docs, k);
    var scores := AllOnes(top);
    AllOnesDocs(top);
    forall i | 0 <= i < |top|
      ensures Score(scores, top[i]) == 1.0
    {
      AllOnesScore(top, i);
    }
    var sorted := SortDescending(Values(scores));
    forall i | 0 <= i < |sorted|
      ensures sorted[i] == 1.0
    {
      SortKeepsElements(Values(scores), sorted[i]);
    }
    DiscountFalls(lg);
    assert Rises(pow, 0.0, 1.0);
    var ideal := Gains(Top(sorted, k), pow);
    SameGainLonger(Discount(lg), pow(1.0) - 1.0, ideal, DocGains(top, scores, pow));
    assert ideal != [] by {
      AllOnesIsNotEmpty(top);
    }
    SameGainLonger(Discount(lg), pow(1.0) - 1.0, [], ideal);
  }

  ghost predicate NeverExceeds(docs: seq<string>, k: int, lg: int -> real, pow: real -> real) {
    forall scores: seq<Scored> :: DistinctDocs(scores) && IdealNonNegative(scores, k) ==>
      DocDcg(docs, scores, k, lg, pow) <= IdealDcg(scores, k, lg, pow)
  }

  /**
    The quotient stays within 1 for all scores without a negative one among the `k` best exactly when the first
    `k` documents are distinct.
   */
  lemma WithinOneExactlyWhenDistinct(docs: seq<string>, k: int, lg: int -> real, pow: real -> real)
    requires Log2Like(lg) && Pow2Like(pow) && k > 0
    ensures NeverExceeds(docs, k, lg, pow) <==> Distinct(Top(docs, k))
  {
    if Distinct(Top(docs, k)) {
      forall scores: seq<Scored> | DistinctDocs(scores) && IdealNonNegative(scores, k)
        ensures DocDcg(docs, scores, k, lg, pow) <= IdealDcg(scores, k, lg, pow)
      {
        DocDcgAtMostIdeal(docs, scores, k, lg, pow);
      }
    } else {
      RepeatsExceed(docs, k, lg, pow);
    }
  }

  // ----- documents in the ideal order -----

  function InsertScored(x: Scored, s: seq<Scored>): seq<Scored> {
    if s == [] || x.score >= s[0].score then [x] + s else [s[0]] + InsertScored(x, s[1..])
  }

  /** The scores with their documents, best first. */
  function SortScored(s: seq<Scored>): seq<Scored> {
    if s == [] then [] else InsertScored(s[0], SortScored(s[1..]))
  }

  lemma {:induction false} InsertScoredValues(x: Scored, s: seq<Scored>)
    ensures Values(InsertScored(x, s)) == InsertDescending(x.score, Values(s))
  {
    if s != [] && x.score < s[0].score {
      InsertScoredValues(x, s[1..]);
      assert Values(s)[1..] == Values(s[1..]);
    }
  }

  lemma {:induction false} SortScoredValues(s: seq<Scored>)
    ensures Values(SortScored(s)) == SortDescending(Values(s))
  {
    if s != [] {
      SortScoredValues(s[1..]);
      InsertScoredValues(s[0], SortScored(s[1..]));
      assert Values(s)[1..] == Values(s[1..]);
    }
  }

  lemma {:induction false} InsertScoredDistinct(x: Scored, s: seq<Scored>)
    requires DistinctDocs(s) && forall i :: 0 <= i < |s| ==> s[i].doc != x.doc
    ensures DistinctDocs(InsertScored(x, s))
    ensures forall y :: y in InsertScored(x, s) <==> y == x || y in s
  {
    if s != [] && x.score < s[0].score {
      var rest := InsertScored(x, s[1..]);
      InsertScoredDistinct(x, s[1..]);
      assert s == [s[0]] + s[1..];
      forall j | 0 <= j < |rest|
        ensures rest[j].doc != s[0].doc
      {
        assert rest[j] in rest;
      }
    }
  }

  lemma {:induction false} SortScoredDistinct(s: seq<Scored>)
    requires DistinctDocs(s)
    ensures DistinctDocs(SortScored(s))
    ensures forall y :: y in SortScored(s) <==> y in s
  {
    if s != [] {
      var rest := SortScored(s[1..]);
      SortScoredDistinct(s[1..]);
      assert s == [s[0]] + s[1..];
      forall i | 0 <= i < |rest|
        ensures rest[i].doc != s[0].doc
      {
        assert rest[i] in rest;
      }
      InsertScoredDistinct(s[0], rest);
    }
  }

  /** The `c` best documents. */
  function Best(scores: seq<Scored>, c: nat): (docs: seq<string>)
    requires c <= |SortScored(scores)|
    ensures |docs| == c
  {
    seq(c, i requires 0 <= i < c => SortScored(scores)[i].doc)
  }

  lemma BestScore(scores: seq<Scored>, c: nat, i: nat)
    requires DistinctDocs(scores) && i < c <= |SortScored(scores)|
    ensures Score(scores, Best(scores, c)[i]) == SortScored(scores)[i].score
  {
    SortScoredDistinct(scores);
    assert SortScored(scores)[i] in scores;
    var j :| 0 <= j < |scores| && scores[j] == SortScored(scores)[i];
    ScoreAt(scores, j);
  }

  /** The best documents earn the ideal gains, in order. */
  lemma BestGains(scores: seq<Scored>, c: nat, pow: real -> real)
    requires DistinctDocs(scores) && c <= |scores|
    ensures |SortScored(scores)| == |scores| && Distinct(Best(scores, c))
    ensures DocGains(Best(scores, c), scores, pow) == Gains(SortDescending(Values(scores)), pow)[..c]
  {
    SortScoredValues(scores);
    SortScoredDistinct(scores);
    assert |Values(SortScored(scores))| == |scores|;
    var ideal := SortDescending(Values(scores));
    forall i | 0 <= i < c
      ensures Score(scores, Best(scores, c)[i]) == ideal[i]
    {
      BestScore(scores, c, i);
      assert Values(SortScored(scores))[i] == SortScored(scores)[i].score;
    }
  }

  lemma {:induction false} NegativeTailCosts(w: int -> real, s: seq<real>, a: nat, b: nat)
    requires Falling(w) && a < b <= |s| && forall i :: a <= i < b ==> s[i] < 0.0
    ensures Weighted(w, s[..b]) < Weighted(w, s[..a])
    decreases b
  {
    assert s[..b][..b - 1] == s[..b - 1];
    assert w(b) >= w(b) > 0.0;
    ProductIsPositive(w(b), -s[b - 1]);
    if a < b - 1 {
      NegativeTailCosts(w, s, a, b - 1);
    }
  }

  lemma DescendingTail(s: seq<real>, i: nat)
    requires Descending(s) && Lead(s) <= i < |s|
    ensures s[i] < 0.0
  {
    assert s[Lead(s)] >= s[i];
  }

  lemma NegativeIdeal(scores: seq<Scored>, k: int, pow: real -> real)
    requires Pow2Like(pow) && !IdealNonNegative(scores, k)
    ensures var ideal := Gains(SortDescending(Values(scores)), pow);
            Lead(ideal) < Bound(k, |ideal|) && forall j :: Lead(ideal) <= j < |ideal| ==> ideal[j] < 0.0
  {
    var sorted := SortDescending(Values(scores));
    var ideal := Gains(sorted, pow);
    var i :| 0 <= i < Bound(k, |sorted|) && Top(sorted, k)[i] < 0.0;
    GainSign(sorted, i, pow);
    GainsSort(Values(scores), pow);
    SortIsDescending(Gains(Values(scores), pow));
    forall j | Lead(ideal) <= j < |ideal|
      ensures ideal[j] < 0.0
    {
      DescendingTail(ideal, j);
    }
  }

  /** A negative score among the `k` best lowers the ideal below what the documents before it earn. */
  lemma NegativeScoreExceeds(scores: seq<Scored>, k: int, lg: int -> real, pow: real -> real)
    returns (docs: seq<string>)
    requires Log2Like(lg) && Pow2Like(pow) && k > 0 && DistinctDocs(scores) && !IdealNonNegative(scores, k)
    ensures Distinct(Top(docs, k)) && DocDcg(docs, scores, k, lg, pow) > IdealDcg(scores, k, lg, pow)
  {
    var sorted := SortDescending(Values(scores));
    var ideal, m := Gains(sorted, pow), Bound(k, |sorted|);
    NegativeIdeal(scores, k, pow);
    var c := Lead(ideal);
    BestGains(scores, c, pow);
    docs := Best(scores, c);
    assert Top(docs, k) == docs;
    assert Gains(Top(sorted, k), pow) == ideal[..m];
    DiscountFalls(lg);
    NegativeTailCosts(Discount(lg), ideal, c, m);
  }

  ghost predicate NeverExceeded(scores: seq<Scored>, k: int, lg: int -> real, pow: real -> real) {
    forall docs: seq<string> :: Distinct(Top(docs, k)) ==>
      DocDcg(docs, scores, k, lg, pow) <= IdealDcg(scores, k, lg, pow)
  }

  /**
    For given scores the quotient stays within 1 for all distinct documents exactly when none of the `k` best
    scores is negative.
   */
  lemma WithinOneExactlyWhenIdealNonNegative(scores: seq<Scored>, k: int, lg: int -> real, pow: real -> real)
    requires Log2Like(lg) && Pow2Like(pow) && k > 0 && DistinctDocs(scores)
    ensures NeverExceeded(scores, k, lg, pow) <==> IdealNonNegative(scores, k)
  {
    if IdealNonNegative(scores, k) {
      forall docs: seq<string> | Distinct(Top(docs, k))
        ensures DocDcg(docs, scores, k, lg, pow) <= IdealDcg(scores, k, lg, pow)
      {
        DocDcgAtMostIdeal(docs, scores, k, lg, pow);
      }
    } else {
      var docs := NegativeScoreExceeds(scores, k, lg, pow);
    }
  }

  // ----- when the clamp is needed -----

  /** The quotient lies above 1, so that the source's upper clamp cuts it. */
  predicate Cut(docs: seq<string>, scores: seq<Scored>, k: int, lg: int -> real, pow: real -> real) {
    var dcg, idcg := DocDcg(docs, scores, k, lg, pow), IdealDcg(scores, k, lg, pow);
    idcg > 0.0 && dcg / idcg > 1.0
  }

  lemma CutExactlyWhenAbove(docs: seq<string>, scores: seq<Scored>, k: int, lg: int -> real, pow: real -> real)
    ensures var dcg, idcg := DocDcg(docs, scores, k, lg, pow), IdealDcg(scores, k, lg, pow);
            Cut(docs, scores, k, lg, pow) <==> idcg > 0.0 && dcg > idcg
  {
    var dcg, idcg := DocDcg(docs, scores, k, lg, pow), IdealDcg(scores, k, lg, pow);
    if idcg > 0.0 {
      QuotientAboveOne(dcg, idcg);
    }
  }

  lemma QuotientAboveOne(x: real, y: real)
    requires y > 0.0
    ensures x / y > 1.0 <==> x > y
  {
    var q := x / y;
    assert q * y == x;
    if q > 1.0 {
      ProductGrows(1.0, q, y);
    } else {
      ProductGrows(q, 1.0, y);
    }
  }

  /** For given documents: some scores, none of the `k` best negative, are cut exactly when a document repeats. */
  lemma CutExactlyWhenRepeated(docs: seq<string>, k: int, lg: int -> real, pow: real -> real)
    requires Log2Like(lg) && Pow2Like(pow) && k > 0
    ensures (exists scores: seq<Scored> ::
              DistinctDocs(scores) && IdealNonNegative(scores, k) && Cut(docs, scores, k, lg, pow))
            <==> !Distinct(Top(docs, k))
  {
    if Distinct(Top(docs, k)) {
      forall scores: seq<Scored> | DistinctDocs(scores) && IdealNonNegative(scores, k)
        ensures !Cut(docs, scores, k, lg, pow)
      {
        DocDcgAtMostIdeal(docs, scores, k, lg, pow);
        CutExactlyWhenAbove(docs, scores, k, lg, pow);
      }
    } else {
      RepeatsExceed(docs, k, lg, pow);
      CutExactlyWhenAbove(docs, AllOnes(Top(docs, k)), k, lg, pow);
    }
  }

  /**
    For given scores: some distinct documents are cut exactly when one of the `k` best scores is negative but the
    ideal is still positive.
   */
  lemma CutExactlyWhenNegative(scores: seq<Scored>, k: int, lg: int -> real, pow: real -> real)
    requires Log2Like(lg) && Pow2Like(pow) && k > 0 && DistinctDocs(scores)
    ensures (exists docs: seq<string> :: Distinct(Top(docs, k)) && Cut(docs, scores, k, lg, pow))
            <==> !IdealNonNegative(scores, k) && IdealDcg(scores, k, lg, pow) > 0.0
  {
    if IdealNonNegative(scores, k) {
      forall docs: seq<string> | Distinct(Top(docs, k))
        ensures !Cut(docs, scores, k, lg, pow)
      {
        DocDcgAtMostIdeal(docs, scores, k, lg, pow);
        CutExactlyWhenAbove(docs, scores, k, lg, pow);
      }
    } else if IdealDcg(scores, k, lg, pow) > 0.0 {
      var docs := NegativeScoreExceeds(scores, k, lg, pow);
      CutExactlyWhenAbove(docs, scores, k, lg, pow);
    }
  }

  // ----- the computation -----

  /** `round(x, 4)`. */
  function Round4(x: real): (r: real)
    ensures x <= 1.0 ==> r <= 1.0
    ensures x >= 0.0 ==> r >= 0.0
    ensures -0.00005 <= r - x <= 0.00005
  {
    Round(x * 10000.0) as real / 10000.0
  }

  method ComputeDcgAtK(retrieved: seq<string>, scores: seq<Scored>, k: int, lg: int -> real, pow: real -> real)
    returns (dcg: real)
    requires Log2Like(lg)
    ensures dcg == DocDcg(retrieved, scores, k, lg, pow)
  {
    var topK := Top(retrieved, k);
    ghost var gains := DocGains(topK, scores, pow);
    dcg := 0.0;
    for i := 0 to |topK|
      invariant dcg == Weighted(Discount(lg), gains[..i])
    {
      OneMorePosition(lg, gains, i);
      var rel := Score(scores, topK[i]);
      var numerator := pow(rel) - 1.0;
      var denominator := lg(i + 2);
      dcg := dcg + numerator / denominator;
    }
    assert gains[..|gains|] == gains;
  }

  /**
    Within [0, 1] always, and without help of the upper clamp when documents are distinct and none of the `k` best
    scores is negative.
   */
  method ComputeNdcgAtK(retrieved: seq<string>, scores: seq<Scored>, k: int, lg: int -> real, pow: real -> real)
    returns (ndcg: real)
    requires Log2Like(lg) && Pow2Like(pow) && DistinctDocs(scores)
    ensures 0.0 <= ndcg <= 1.0
    ensures var dcg, idcg := DocDcg(retrieved, scores, k, lg, pow), IdealDcg(scores, k, lg, pow);
            ndcg == if k <= 0 then 0.0
                    else if idcg <= 0.0 then if scores == [] then 1.0 else 0.0
                    else Round4(MinReal(1.0, MaxReal(0.0, dcg / idcg)))
    ensures var dcg, idcg := DocDcg(retrieved, scores, k, lg, pow), IdealDcg(scores, k, lg, pow);
            k > 0 && IdealNonNegative(scores, k) && Distinct(Top(retrieved, k)) && idcg > 0.0 ==>
              ndcg == Round4(MaxReal(0.0, dcg / idcg))
  {
    if k <= 0 {
      return 0.0;
    }
    var dcg := ComputeDcgAtK(retrieved, scores, k, lg, pow);
    var idealScores := Top(SortDescending(Values(scores)), k);
    ghost var gains := Gains(idealScores, pow);
    var idcg := 0.0;
    for i := 0 to |idealScores|
      invariant idcg == Weighted(Discount(lg), gains[..i])
    {
      OneMorePosition(lg, gains, i);
      var numerator := pow(idealScores[i]) - 1.0;
      var denominator := lg(i + 2);
      idcg := idcg + numerator / denominator;
    }
    assert gains[..|gains|] == gains;
    if idcg <= 0.0 {
      return if scores == [] then 1.0 else 0.0;
    }
    if IdealNonNegative(scores, k) && Distinct(Top(retrieved, k)) {
      DocDcgAtMostIdeal(retrieved, scores, k, lg, pow);
      RatioAtMostOne(dcg, idcg);
    }
    return Round4(MinReal(1.0, MaxReal(0.0, dcg / idcg)));
  }
}

/**
  What the retrieval metrics measure, told without their formulas: what one relevant result is worth at its rank,
  that results add up, and what the rank, the share and the score mean.
 */
module NdcgMeaning {
  import opened Wrappers
  import opened Ndcg

  /** The DCG of a ranked list at `k`. */
  function ListDcg(labels: seq<real>, k: int, lg: int -> real): real {
    Weighted(Discount(lg), Top(labels, k))
  }

  /** A list of `n` labels, all irrelevant but one. */
  function OneLabel(n: nat, i: nat, x: real): (r: seq<real>)
    requires i < n
    ensures |r| == n && forall j :: 0 <= j < n ==> r[j] == if j == i then x else 0.0
  {
    seq(n, j => if j == i then x else 0.0)
  }

  lemma {:induction false} WeightedOne(w: int -> real, s: seq<real>, i: nat)
    requires i < |s| && forall j :: 0 <= j < |s| && j != i ==> s[j] == 0.0
    ensures Weighted(w, s) == w(i + 1) * s[i]
  {
    var n := |s| - 1;
    if i == n {
      WeightedNone(w, s[..n]);
    } else {
      WeightedOne(w, s[..n], i);
    }
  }

  lemma {:induction false} WeightedNone(w: int -> real, s: seq<real>)
    requires forall j :: 0 <= j < |s| ==> s[j] == 0.0
    ensures Weighted(w, s) == 0.0
  {
    if s != [] {
      WeightedNone(w, s[..|s| - 1]);
    }
  }

  /** One result at rank `i + 1` is worth its label over the logarithm of the rank plus one, and nothing beyond `k`. */
  lemma OneResultIsWorth(n: nat, i: nat, x: real, k: int, lg: int -> real)
    requires Log2Like(lg) && i < n && k >= 0
    ensures lg(i + 2) >= 1.0
    ensures ListDcg(OneLabel(n, i, x), k, lg) == if i < k then x / lg(i + 2) else 0.0
    ensures i == 0 && k > 0 ==> ListDcg(OneLabel(n, i, x), k, lg) == x
  {
    assert NoFall(lg, 2, i + 2);
    var top := Top(OneLabel(n, i, x), k);
    if i < k {
      WeightedOne(Discount(lg), top, i);
      DivideIsMultiply(x, lg(i + 2));
    } else {
      WeightedNone(Discount(lg), top);
    }
  }

  lemma {:induction false} WeightedAdds(w: int -> real, a: seq<real>, b: seq<real>, c: seq<real>)
    requires |a| == |b| == |c| && forall i :: 0 <= i < |c| ==> c[i] == a[i] + b[i]
    ensures Weighted(w, c) == Weighted(w, a) + Weighted(w, b)
  {
    if c != [] {
      var n := |c| - 1;
      WeightedAdds(w, a[..n], b[..n], c[..n]);
      assert w(n + 1) * (a[n] + b[n]) == w(n + 1) * a[n] + w(n + 1) * b[n];
    }
  }

  /** Results add up; with the worth of one result this determines the DCG of every list. */
  lemma ResultsAddUp(a: seq<real>, b: seq<real>, c: seq<real>, k: int, lg: int -> real)
    requires |a| == |b| == |c| && forall i :: 0 <= i < |c| ==> c[i] == a[i] + b[i]
    ensures ListDcg(c, k, lg) == ListDcg(a, k, lg) + ListDcg(b, k, lg)
  {
    WeightedAdds(Discount(lg), Top(a, k), Top(b, k), Top(c, k));
  }

  /** Normalised, the list's DCG is that share of the ideal one. */
  lemma NormalisedIsTheShare(labels: seq<real>, k: int, lg: int -> real)
    requires ListDcg(SortDescending(labels), k, lg) > 0.0
    ensures ListNdcg(labels, k, lg) * ListDcg(SortDescending(labels), k, lg) == ListDcg(labels, k, lg)
  {
  }

  // ----- retrieved documents -----

  lemma {:induction false} UnlistedScoresNothing(scores: seq<Scored>, doc: string)
    requires forall i :: 0 <= i < |scores| ==> scores[i].doc != doc
    ensures Score(scores, doc) == 0.0
  {
    if scores != [] {
      UnlistedScoresNothing(scores[..|scores| - 1], doc);
    }
  }

  /**
    One document with a score, at rank `i + 1` among others without, is worth two to its score, less one, over the
    logarithm of the rank plus one, and nothing beyond `k`.
   */
  lemma OneDocumentIsWorth(docs: seq<string>, i: nat, score: real, k: int, lg: int -> real, pow: real -> real)
    requires Log2Like(lg) && Pow2Like(pow) && i < |docs| && k >= 0
    requires forall j :: 0 <= j < |docs| && j != i ==> docs[j] != docs[i]
    ensures lg(i + 2) >= 1.0
    ensures DocDcg(docs, [Scored(docs[i], score)], k, lg, pow) == if i < k then (pow(score) - 1.0) / lg(i + 2) else 0.0
  {
    var scores := [Scored(docs[i], score)];
    var top := Top(docs, k);
    var gains := DocGains(top, scores, pow);
    assert NoFall(lg, 2, i + 2);
    forall j | 0 <= j < |top| && j != i
      ensures gains[j] == 0.0
    {
      UnlistedScoresNothing(scores, top[j]);
    }
    if i < k {
      assert Score(scores, top[i]) == score;
      WeightedOne(Discount(lg), gains, i);
      DivideIsMultiply(pow(score) - 1.0, lg(i + 2));
    } else {
      WeightedNone(Discount(lg), gains);
    }
  }

  // ----- rank, share and score -----

  /** The reciprocal rank is one over the rank of the first relevant result. */
  lemma {:induction false} RankIsOfTheFirst(labels: seq<real>, i: nat)
    requires i < |labels| && labels[i] > 0.0 && forall j :: 0 <= j < i ==> labels[j] <= 0.0
    ensures ReciprocalRank(labels) == 1.0 / (i + 1) as real
  {
    assert FirstRelevant(labels) == i;
  }

  lemma {:induction false} RankOfNone(labels: seq<real>)
    requires forall j :: 0 <= j < |labels| ==> labels[j] <= 0.0
    ensures ReciprocalRank(labels) == 0.0
  {
  }

  /** The positions of the relevant results. */
  function RelevantAt(labels: seq<real>): set<nat> {
    set i: nat | i < |labels| && labels[i] > 0.0
  }

  lemma {:induction false} RelevantCounts(labels: seq<real>)
    ensures Relevant(labels) == |RelevantAt(labels)|
  {
    if labels == [] {
      assert RelevantAt(labels) == {};
    } else {
      var n := |labels| - 1;
      RelevantCounts(labels[..n]);
      assert RelevantAt(labels) == RelevantAt(labels[..n]) + (if labels[n] > 0.0 then {n} else {});
      assert n !in RelevantAt(labels[..n]);
    }
  }

  /** The precision times `k` is the number of relevant results among the first `k`. */
  lemma ShareCounts(labels: seq<real>, k: int)
    requires k > 0
    ensures Precision(labels, k) * k as real == |RelevantAt(Top(labels, k))| as real
  {
    RelevantCounts(Top(labels, k));
  }

  /** The score is the mean of rank, gain and share, to three digits. */
  lemma ScoreIsTheMean(labels: seq<real>, k: int, lg: int -> real)
    ensures var mean := (ReciprocalRank(labels) + ListNdcg(labels, k, lg) + Precision(labels, Min(k, |labels|))) / 3.0;
            -0.0005 <= RelevanceScore(labels, k, lg) - mean <= 0.0005
  {
  }
}

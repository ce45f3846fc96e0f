/** The offline evaluation: the judged queries of the sample and their
    relevant products, the top-20 products by similarity for each query, the
    hit count, precision@20, recall@20 and their means. Similarities are
    abstract integer scores; the encoder and `np.argsort` are parameters. */
module EvaluateSampleDataset {

  import opened Wrappers
  import opened Seqs
  import opened TextCleaning
  import opened Dataset

  /** The query value of rows that are relevant to no query. */
  const Sentinel := "irrelevant"

  /** The cut-off of precision@k and recall@k. */
  const K: nat := 20

  // ---------------------------------------------------------------------------
  // Queries and their relevant products

  function QueryOf(r: Row): string {
    r.query
  }

  /** `df_queries`: the rows whose query is not the sentinel, in file order. */
  function JudgedRows(rows: seq<Row>): (r: seq<Row>)
    ensures IsSubsequence(r, rows)
    ensures forall x :: x in r <==> x in rows && x.query != Sentinel
  {
    Filter(rows, (x: Row) => x.query != Sentinel)
  }

  /** Each judged row is kept as often as it occurs; no row is duplicated. */
  lemma JudgedRowsCounts(rows: seq<Row>)
    ensures forall x :: multiset(JudgedRows(rows))[x] == if x.query != Sentinel then multiset(rows)[x] else 0
  {
    FilterCounts(rows, (x: Row) => x.query != Sentinel);
  }

  /** `df_queries['query'].unique()`: each judged query once, in order of
      first appearance. */
  function Queries(rows: seq<Row>): (qs: seq<string>)
    ensures Distinct(qs)
    ensures forall q :: q in qs <==> exists x :: x in rows && x.query != Sentinel && x.query == q
  {
    var judged := JudgedRows(rows);
    var firsts := DistinctBy(judged, QueryOf);
    var qs := Map(firsts, QueryOf);
    ColumnMembers(firsts, qs);
    assert KeysOf(firsts, QueryOf) == KeysOf(judged, QueryOf);
    qs
  }

  /** The queries are the judged query column with each value kept at its
      first appearance, in the order of those appearances. */
  lemma QueriesInFirstAppearanceOrder(rows: seq<Row>)
    ensures Queries(rows) == FirstsFrom(Map(JudgedRows(rows), QueryOf), Identity, 0)
  {
    DistinctByKeepsFirsts(JudgedRows(rows), QueryOf);
    FirstsOfColumn(JudgedRows(rows), QueryOf, 0);
  }

  lemma ColumnMembers(firsts: seq<Row>, qs: seq<string>)
    requires |qs| == |firsts| && forall i :: 0 <= i < |qs| ==> qs[i] == firsts[i].query
    requires DistinctKeys(firsts, QueryOf)
    ensures Distinct(qs)
    ensures forall q :: q in qs <==> q in KeysOf(firsts, QueryOf)
  {
    forall q | q in KeysOf(firsts, QueryOf) ensures q in qs {
      var x :| x in firsts && QueryOf(x) == q;
      var i :| 0 <= i < |firsts| && firsts[i] == x;
      assert qs[i] == q;
    }
    forall q | q in qs ensures q in KeysOf(firsts, QueryOf) {
      var i :| 0 <= i < |qs| && qs[i] == q;
      assert firsts[i] in firsts;
    }
    forall i, j | 0 <= i < j < |qs| ensures qs[i] != qs[j] {
      assert QueryOf(firsts[i]) != QueryOf(firsts[j]);
    }
  }

  /** The `parent_asin` of every row judged for query `q`. */
  function RelevantTo(rows: seq<Row>, q: string): (s: set<string>)
    ensures forall a :: a in s <==> exists x :: x in rows && x.query != Sentinel && x.query == q && x.parentAsin == a
  {
    set x | x in JudgedRows(rows) && x.query == q :: x.parentAsin
  }

  /** `query_to_relevant`: each judged query mapped to its relevant products. */
  function QueryToRelevant(rows: seq<Row>): (m: map<string, set<string>>)
    ensures forall q :: q in m <==> q in Queries(rows)
    ensures forall q :: q in m ==> m[q] == RelevantTo(rows, q)
  {
    map q | q in Queries(rows) :: RelevantTo(rows, q)
  }

  /** No entry of `query_to_relevant` is empty. */
  lemma QueryToRelevantNonEmpty(rows: seq<Row>)
    ensures forall q :: q in QueryToRelevant(rows) ==> QueryToRelevant(rows)[q] != {}
  {
    forall q | q in QueryToRelevant(rows)
      ensures QueryToRelevant(rows)[q] != {}
    {
      RelevantNeverEmpty(rows, q);
    }
  }

  /** Every query the loop visits has judged products, so its entry is not
      empty and the recall denominator is never zero. */
  lemma RelevantNeverEmpty(rows: seq<Row>, q: string)
    requires q in Queries(rows)
    ensures |RelevantTo(rows, q)| > 0
  {
    var x :| x in rows && x.query != Sentinel && x.query == q;
    assert x.parentAsin in RelevantTo(rows, q);
  }

  /** A row with the sentinel query never becomes a query of its own. */
  lemma SentinelExcluded(rows: seq<Row>)
    ensures Sentinel !in Queries(rows)
  {
  }

  // ---------------------------------------------------------------------------
  // Top-k selection: np.argsort(similarities)[::-1][:k]

  function Min(a: nat, b: nat): nat {
    if a <= b then a else b
  }

  /** Indices of `scores` in non-increasing score order. */
  predicate SortedByScore(scores: seq<int>, t: seq<nat>) {
    && (forall i :: 0 <= i < |t| ==> t[i] < |scores|)
    && (forall i, j :: 0 <= i < j < |t| ==> scores[t[i]] >= scores[t[j]])
  }

  /** `t` is a top-`k` selection among the first `n` indices of `scores`:
      min(k, n) distinct indices, best first, none of them beaten by an index
      left out, and all indices taken when fewer than `k` are available. */
  predicate IsTopKOf(scores: seq<int>, k: nat, n: nat, t: seq<nat>)
    requires n <= |scores|
  {
    && |t| == Min(k, n)
    && (forall i :: 0 <= i < |t| ==> t[i] < n)
    && Distinct(t)
    && SortedByScore(scores, t)
    && (forall y :: 0 <= y < n && y !in t ==> forall i :: 0 <= i < |t| ==> scores[y] <= scores[t[i]])
  }

  /** What `np.argsort(scores)[::-1][:k]` promises; the order among equal
      scores is unspecified. */
  predicate IsTopK(scores: seq<int>, k: nat, t: seq<nat>) {
    IsTopKOf(scores, k, |scores|, t)
  }

  /** `t` with `x` placed before the first index of lower score. */
  function InsertByScore(scores: seq<int>, t: seq<nat>, x: nat): (r: seq<nat>)
    requires x < |scores| && forall i :: 0 <= i < |t| ==> t[i] < |scores|
    ensures |r| == |t| + 1
    ensures forall y :: y in r <==> y in t || y == x
    ensures forall i :: 0 <= i < |r| ==> r[i] < |scores|
  {
    if |t| == 0 then [x]
    else if scores[x] > scores[t[0]] then [x] + t
    else
      var rest := InsertByScore(scores, t[1..], x);
      assert forall y :: y in t <==> y == t[0] || y in t[1..];
      [t[0]] + rest
  }

  /** The first index of a sorted list scores at least as high as any other. */
  lemma HeadScoresHighest(scores: seq<int>, t: seq<nat>, y: nat)
    requires SortedByScore(scores, t) && |t| > 0 && y in t
    ensures scores[y] <= scores[t[0]]
  {
    var m :| 0 <= m < |t| && t[m] == y;
  }

  /** Insertion keeps a score-sorted list sorted. */
  lemma {:induction false} InsertSorted(scores: seq<int>, t: seq<nat>, x: nat)
    requires x < |scores| && SortedByScore(scores, t)
    ensures SortedByScore(scores, InsertByScore(scores, t, x))
  {
    if |t| > 0 && scores[x] <= scores[t[0]] {
      var rest := InsertByScore(scores, t[1..], x);
      InsertSorted(scores, t[1..], x);
      var r := [t[0]] + rest;
      assert r == InsertByScore(scores, t, x);
      forall j | 0 <= j < |rest| ensures scores[rest[j]] <= scores[t[0]] {
        assert rest[j] in rest;
        if rest[j] != x {
          HeadScoresHighest(scores, t, rest[j]);
        }
      }
      forall i, j | 0 <= i < j < |r| ensures scores[r[i]] >= scores[r[j]] {
        if i > 0 {
          assert r[i] == rest[i - 1] && r[j] == rest[j - 1];
        } else {
          assert r[j] == rest[j - 1];
        }
      }
    }
  }

  /** Inserting a new index into a list of distinct indices keeps them distinct. */
  lemma {:induction false} InsertDistinct(scores: seq<int>, t: seq<nat>, x: nat)
    requires x < |scores| && (forall i :: 0 <= i < |t| ==> t[i] < |scores|)
    requires Distinct(t) && x !in t
    ensures Distinct(InsertByScore(scores, t, x))
  {
    if |t| > 0 && scores[x] <= scores[t[0]] {
      var rest := InsertByScore(scores, t[1..], x);
      assert t[0] !in t[1..];
      InsertDistinct(scores, t[1..], x);
      var r := [t[0]] + rest;
      assert r == InsertByScore(scores, t, x);
      assert t[0] !in rest;
      forall i, j | 0 <= i < j < |r| ensures r[i] != r[j] {
        if i > 0 {
          assert r[i] == rest[i - 1] && r[j] == rest[j - 1];
        } else {
          assert r[j] in rest;
        }
      }
    }
  }

  /** An index past the cut scores no higher than any index before it. */
  lemma CutScoresLower(scores: seq<int>, s: seq<nat>, m: nat, y: nat)
    requires SortedByScore(scores, s) && m <= |s|
    requires y in s && y !in s[..m]
    ensures forall i :: 0 <= i < m ==> scores[y] <= scores[s[i]]
  {
    var j :| 0 <= j < |s| && s[j] == y;
  }

  /** A prefix of a sorted list of distinct indices is one too. */
  lemma PrefixSortedDistinct(scores: seq<int>, s: seq<nat>, m: nat)
    requires SortedByScore(scores, s) && Distinct(s) && m <= |s|
    ensures SortedByScore(scores, s[..m]) && Distinct(s[..m])
  {
    assert forall i :: 0 <= i < m ==> s[..m][i] == s[i];
  }

  /** `np.argsort(scores[..n])[::-1]`: the first `n` indices, best score
      first, built by insertion. */
  function SortedIndices(scores: seq<int>, n: nat): (r: seq<nat>)
    requires n <= |scores|
    ensures |r| == n
    ensures forall y: nat :: y in r <==> y < n
    ensures forall i :: 0 <= i < |r| ==> r[i] < |scores|
  {
    if n == 0 then [] else InsertByScore(scores, SortedIndices(scores, n - 1), n - 1)
  }

  lemma {:induction false} SortedIndicesSortedDistinct(scores: seq<int>, n: nat)
    requires n <= |scores|
    ensures SortedByScore(scores, SortedIndices(scores, n))
    ensures Distinct(SortedIndices(scores, n))
  {
    if n > 0 {
      var prev := SortedIndices(scores, n - 1);
      SortedIndicesSortedDistinct(scores, n - 1);
      InsertSorted(scores, prev, n - 1);
      InsertDistinct(scores, prev, n - 1);
    }
  }

  /** The first `k` of the sorted indices are a top-`k` selection. */
  lemma TopKCorrect(scores: seq<int>, k: nat)
    ensures IsTopK(scores, k, SortedIndices(scores, |scores|)[..Min(k, |scores|)])
  {
    var all := SortedIndices(scores, |scores|);
    var m := Min(k, |scores|);
    var t := all[..m];
    SortedIndicesSortedDistinct(scores, |scores|);
    PrefixSortedDistinct(scores, all, m);
    forall y | 0 <= y < |scores| && y !in t
      ensures forall i :: 0 <= i < |t| ==> scores[y] <= scores[t[i]]
    {
      CutScoresLower(scores, all, m, y);
    }
  }

  /** `np.argsort(scores)[::-1][:k]`, with ties in index order. A top-`k`
      selection exists for every score list, so the requirement placed on
      `argsort` below can be met. */
  function TopK(scores: seq<int>, k: nat): (t: seq<nat>)
    ensures IsTopK(scores, k, t)
  {
    TopKCorrect(scores, k);
    SortedIndices(scores, |scores|)[..Min(k, |scores|)]
  }

  // ---------------------------------------------------------------------------
  // Counting hits

  /** The number of ranks of `top` whose product is relevant. */
  function CountIn(top: seq<string>, relevant: set<string>): (n: nat)
    ensures n <= |top|
  {
    if |top| == 0 then 0
    else CountIn(top[..|top| - 1], relevant) + (if top[|top| - 1] in relevant then 1 else 0)
  }

  /** The ranks (0-based) whose product is relevant. */
  function HitRanks(top: seq<string>, relevant: set<string>): set<nat> {
    set i: nat | i < |top| && top[i] in relevant
  }

  /** The count is the number of relevant ranks. */
  lemma {:induction false} CountInIsHitRanks(top: seq<string>, relevant: set<string>)
    ensures CountIn(top, relevant) == |HitRanks(top, relevant)|
  {
    if |top| > 0 {
      var init := top[..|top| - 1];
      CountInIsHitRanks(init, relevant);
      var last := |top| - 1;
      if top[last] in relevant {
        assert HitRanks(top, relevant) == HitRanks(init, relevant) + {last};
      } else {
        assert HitRanks(top, relevant) == HitRanks(init, relevant);
      }
    }
  }

  /** The products of `top` as a set. */
  function ElemsOf(top: seq<string>): (r: set<string>)
    ensures forall a :: a in r <==> a in top
  {
    if |top| == 0 then {}
    else
      var init := top[..|top| - 1];
      assert forall a :: a in top <==> a in init || a == top[|top| - 1];
      ElemsOf(init) + {top[|top| - 1]}
  }

  /** With no product retrieved twice, the count is the number of distinct
      relevant products retrieved. */
  lemma {:induction false} CountInDistinct(top: seq<string>, relevant: set<string>)
    requires Distinct(top)
    ensures CountIn(top, relevant) == |ElemsOf(top) * relevant|
  {
    if |top| > 0 {
      var init := top[..|top| - 1];
      var last := top[|top| - 1];
      assert Distinct(init);
      CountInDistinct(init, relevant);
      assert last !in ElemsOf(init);
      if last in relevant {
        assert ElemsOf(top) * relevant == ElemsOf(init) * relevant + {last};
      } else {
        assert ElemsOf(top) * relevant == ElemsOf(init) * relevant;
      }
    }
  }

  /** The `relevant_retrieved` loop. */
  method CountRelevant(top: seq<string>, relevant: set<string>) returns (count: nat)
    ensures count == CountIn(top, relevant)
  {
    count := 0;
    var rank := 0;
    while rank < |top|
      invariant 0 <= rank <= |top|
      invariant count == CountIn(top[..rank], relevant)
    {
      assert top[..rank + 1][..rank] == top[..rank];
      count := count + if top[rank] in relevant then 1 else 0;
      rank := rank + 1;
    }
    assert top[..|top|] == top;
  }

  // ---------------------------------------------------------------------------
  // Metrics

  /** Precision@K: the hits over K. */
  function Precision(hits: nat): (r: real)
    ensures r * K as real == hits as real
  {
    hits as real / K as real
  }

  /** Recall@K: the hits over the number of relevant products. */
  function Recall(hits: nat, relevant: set<string>): (r: real)
    requires |relevant| > 0
    ensures r * |relevant| as real == hits as real
  {
    hits as real / |relevant| as real
  }

  /** Recall is never negative and never more than the hit count: the
      divisor is at least 1. */
  lemma RecallBounds(hits: nat, relevant: set<string>)
    requires |relevant| > 0
    ensures 0.0 <= Recall(hits, relevant) <= hits as real
  {
  }

  /** Precision@k of a top-k list lies in [0, 1]. */
  lemma PrecisionInUnitRange(top: seq<string>, relevant: set<string>)
    requires |top| <= K
    ensures 0.0 <= Precision(CountIn(top, relevant)) <= 1.0
  {
  }

  lemma RatioInUnitRange(a: nat, b: nat)
    requires 0 < b && a <= b
    ensures 0.0 <= a as real / b as real <= 1.0
  {
  }

  /** Recall@k is at most 1 when no product is retrieved twice ... */
  lemma RecallAtMostOneWhenDistinct(top: seq<string>, relevant: set<string>)
    requires Distinct(top) && |relevant| > 0
    ensures 0.0 <= Recall(CountIn(top, relevant), relevant) <= 1.0
  {
    CountInDistinct(top, relevant);
    var hit := ElemsOf(top) * relevant;
    SubsetCardinality(hit, relevant);
    RatioInUnitRange(CountIn(top, relevant), |relevant|);
  }

  lemma SubsetCardinality(a: set<string>, b: set<string>)
    requires a <= b
    ensures |a| <= |b|
  {
    assert b == a + (b - a);
  }

  /** ... and exactly 1 when every relevant product is retrieved once. */
  lemma RecallOneWhenAllRetrieved(top: seq<string>, relevant: set<string>)
    requires Distinct(top) && |relevant| > 0
    requires forall a :: a in relevant ==> a in top
    ensures Recall(CountIn(top, relevant), relevant) == 1.0
  {
    CountInDistinct(top, relevant);
    assert ElemsOf(top) * relevant == relevant;
    RatioOne(|relevant|);
  }

  lemma RatioOne(a: nat)
    requires 0 < a
    ensures a as real / a as real == 1.0
  {
  }

  /** ... but a product retrieved twice counts twice: the corpus keeps one
      row per (parent_asin, title, features, description, details), so the
      same asin can fill two ranks, and recall then exceeds 1. */
  lemma RecallCanExceedOne(top: seq<string>, relevant: set<string>)
    requires top == ["B01", "B01"] && relevant == {"B01"}
    ensures Recall(CountIn(top, relevant), relevant) == 2.0
  {
    assert top[..1][..0] == [];
  }

  function Sum(xs: seq<real>): real {
    if |xs| == 0 then 0.0 else Sum(xs[..|xs| - 1]) + xs[|xs| - 1]
  }

  /** `np.mean(xs)`; `None` for an empty list, where NumPy gives nan. */
  function Mean(xs: seq<real>): (m: Option<real>)
    ensures m.None? <==> |xs| == 0
  {
    if |xs| == 0 then None else Some(Sum(xs) / |xs| as real)
  }

  lemma {:induction false} SumBounds(xs: seq<real>, lo: real, hi: real)
    requires forall i :: 0 <= i < |xs| ==> lo <= xs[i] <= hi
    ensures |xs| as real * lo <= Sum(xs) <= |xs| as real * hi
  {
    if |xs| > 0 {
      SumBounds(xs[..|xs| - 1], lo, hi);
    }
  }

  /** The mean of values in [lo, hi] lies in [lo, hi]. */
  lemma MeanBounds(xs: seq<real>, lo: real, hi: real)
    requires |xs| > 0 && forall i :: 0 <= i < |xs| ==> lo <= xs[i] <= hi
    ensures lo <= Mean(xs).value <= hi
  {
    SumBounds(xs, lo, hi);
    QuotientBounds(Sum(xs), |xs| as real, lo, hi);
  }

  lemma QuotientBounds(a: real, n: real, lo: real, hi: real)
    requires n > 0.0 && n * lo <= a <= n * hi
    ensures lo <= a / n <= hi
  {
  }

  // ---------------------------------------------------------------------------
  // The evaluation loop

  /** `top_k_products`: the `parent_asin` of each selected index of the
      metadata frame. */
  function AsinsAt(corpusAsins: seq<string>, top: seq<nat>): (r: seq<string>)
    requires forall i :: 0 <= i < |top| ==> top[i] < |corpusAsins|
    ensures |r| == |top| && forall i :: 0 <= i < |top| ==> r[i] == corpusAsins[top[i]]
    ensures forall a :: a in r ==> a in corpusAsins
  {
    seq(|top|, i requires 0 <= i < |top| => corpusAsins[top[i]])
  }

  /** The similarities of the cleaned query to every corpus product. */
  function Scores(query: string, n: nat, similarity: (string, nat) -> int): (s: seq<int>)
    ensures |s| == n
  {
    seq(n, j requires 0 <= j < n => similarity(CleanText(query), j))
  }

  /** The products retrieved for `query`: `argsort` picks the indices. */
  function Retrieved(query: string, corpusAsins: seq<string>, similarity: (string, nat) -> int,
                     argsortTop: seq<int> -> seq<nat>): (r: seq<string>)
    requires forall s {:trigger IsTopK(s, K, argsortTop(s))} :: IsTopK(s, K, argsortTop(s))
    ensures |r| == Min(K, |corpusAsins|)
  {
    var scores := Scores(query, |corpusAsins|, similarity);
    var top := argsortTop(scores);
    assert IsTopK(scores, K, top);
    AsinsAt(corpusAsins, top)
  }

  /** `relevant_retrieved` for the query `q`. */
  function Hits(rows: seq<Row>, q: string, corpusAsins: seq<string>, similarity: (string, nat) -> int,
                argsortTop: seq<int> -> seq<nat>): nat
    requires forall s {:trigger IsTopK(s, K, argsortTop(s))} :: IsTopK(s, K, argsortTop(s))
  {
    CountIn(Retrieved(q, corpusAsins, similarity, argsortTop), RelevantTo(rows, q))
  }

  /** `precision_at_k` for the query `q`. */
  function QueryPrecision(rows: seq<Row>, q: string, corpusAsins: seq<string>, similarity: (string, nat) -> int,
                          argsortTop: seq<int> -> seq<nat>): (p: real)
    requires forall s {:trigger IsTopK(s, K, argsortTop(s))} :: IsTopK(s, K, argsortTop(s))
    ensures 0.0 <= p <= 1.0
  {
    PrecisionInUnitRange(Retrieved(q, corpusAsins, similarity, argsortTop), RelevantTo(rows, q));
    Precision(Hits(rows, q, corpusAsins, similarity, argsortTop))
  }

  /** `recall_at_k` for the query `q`; every query has at least one relevant
      product, so the division is defined. */
  function QueryRecall(rows: seq<Row>, q: string, corpusAsins: seq<string>, similarity: (string, nat) -> int,
                       argsortTop: seq<int> -> seq<nat>): (r: real)
    requires forall s {:trigger IsTopK(s, K, argsortTop(s))} :: IsTopK(s, K, argsortTop(s))
    requires q in Queries(rows)
  {
    RelevantNeverEmpty(rows, q);
    Recall(Hits(rows, q, corpusAsins, similarity, argsortTop), RelevantTo(rows, q))
  }

  /** One query's recall@k lies in [0, k]. */
  lemma QueryRecallInRange(rows: seq<Row>, q: string, corpusAsins: seq<string>,
                           similarity: (string, nat) -> int, argsortTop: seq<int> -> seq<nat>)
    requires forall s {:trigger IsTopK(s, K, argsortTop(s))} :: IsTopK(s, K, argsortTop(s))
    requires q in Queries(rows)
    ensures 0.0 <= QueryRecall(rows, q, corpusAsins, similarity, argsortTop) <= K as real
  {
    RelevantNeverEmpty(rows, q);
    RecallBounds(Hits(rows, q, corpusAsins, similarity, argsortTop), RelevantTo(rows, q));
  }

  /** One pass of the loop body: retrieve, count the hits, and divide. */
  method EvaluateQuery(rows: seq<Row>, q: string, queryToRelevant: map<string, set<string>>,
                       corpusAsins: seq<string>, similarity: (string, nat) -> int,
                       argsortTop: seq<int> -> seq<nat>)
    returns (precision: real, recall: real)
    requires forall s {:trigger IsTopK(s, K, argsortTop(s))} :: IsTopK(s, K, argsortTop(s))
    requires q in Queries(rows) && queryToRelevant == QueryToRelevant(rows)
    ensures precision == QueryPrecision(rows, q, corpusAsins, similarity, argsortTop)
    ensures recall == QueryRecall(rows, q, corpusAsins, similarity, argsortTop)
  {
    var top := Retrieved(q, corpusAsins, similarity, argsortTop);
    RelevantNeverEmpty(rows, q);
    var relevant := queryToRelevant[q];
    var hits := CountRelevant(top, relevant);
    precision := Precision(hits);
    recall := Recall(hits, relevant);
  }

  /** `precision_list` after the loop has visited the queries `qs`. */
  function PrecisionsFor(rows: seq<Row>, qs: seq<string>, corpusAsins: seq<string>,
                         similarity: (string, nat) -> int, argsortTop: seq<int> -> seq<nat>): (ps: seq<real>)
    requires forall s {:trigger IsTopK(s, K, argsortTop(s))} :: IsTopK(s, K, argsortTop(s))
    ensures |ps| == |qs|
  {
    seq(|qs|, i requires 0 <= i < |qs| => QueryPrecision(rows, qs[i], corpusAsins, similarity, argsortTop))
  }

  /** Every precision in the list lies in [0, 1]. */
  lemma PrecisionsInUnitRange(rows: seq<Row>, qs: seq<string>, corpusAsins: seq<string>,
                                                 similarity: (string, nat) -> int, argsortTop: seq<int> -> seq<nat>)
    requires forall s {:trigger IsTopK(s, K, argsortTop(s))} :: IsTopK(s, K, argsortTop(s))
    ensures forall i :: 0 <= i < |qs| ==> 0.0 <= PrecisionsFor(rows, qs, corpusAsins, similarity, argsortTop)[i] <= 1.0
  {
  }

  /** `recall_list` after the loop has visited the queries `qs`. */
  function RecallsFor(rows: seq<Row>, qs: seq<string>, corpusAsins: seq<string>,
                      similarity: (string, nat) -> int, argsortTop: seq<int> -> seq<nat>): (rs: seq<real>)
    requires forall s {:trigger IsTopK(s, K, argsortTop(s))} :: IsTopK(s, K, argsortTop(s))
    requires forall i :: 0 <= i < |qs| ==> qs[i] in Queries(rows)
    ensures |rs| == |qs|
  {
    seq(|qs|, i requires 0 <= i < |qs| => QueryRecall(rows, qs[i], corpusAsins, similarity, argsortTop))
  }

  /** Every recall in the list lies in [0, k]: a query with one relevant
      product retrieved at every rank reaches k. */
  lemma RecallsInRange(rows: seq<Row>, qs: seq<string>, corpusAsins: seq<string>,
                                          similarity: (string, nat) -> int, argsortTop: seq<int> -> seq<nat>)
    requires forall s {:trigger IsTopK(s, K, argsortTop(s))} :: IsTopK(s, K, argsortTop(s))
    requires forall i :: 0 <= i < |qs| ==> qs[i] in Queries(rows)
    ensures forall i :: 0 <= i < |qs| ==> 0.0 <= RecallsFor(rows, qs, corpusAsins, similarity, argsortTop)[i] <= K as real
  {
    forall i | 0 <= i < |qs|
      ensures 0.0 <= RecallsFor(rows, qs, corpusAsins, similarity, argsortTop)[i] <= K as real
    {
      QueryRecallInRange(rows, qs[i], corpusAsins, similarity, argsortTop);
    }
  }

  /** Visiting one more query appends its precision. */
  lemma PrecisionsStep(rows: seq<Row>, qs: seq<string>, i: nat, corpusAsins: seq<string>,
                       similarity: (string, nat) -> int, argsortTop: seq<int> -> seq<nat>)
    requires forall s {:trigger IsTopK(s, K, argsortTop(s))} :: IsTopK(s, K, argsortTop(s))
    requires i < |qs|
    ensures PrecisionsFor(rows, qs[..i + 1], corpusAsins, similarity, argsortTop)
      == PrecisionsFor(rows, qs[..i], corpusAsins, similarity, argsortTop)
         + [QueryPrecision(rows, qs[i], corpusAsins, similarity, argsortTop)]
  {
    var ps := PrecisionsFor(rows, qs[..i + 1], corpusAsins, similarity, argsortTop);
    var ps' := PrecisionsFor(rows, qs[..i], corpusAsins, similarity, argsortTop);
    forall j | 0 <= j <= i
      ensures ps[j] == (ps' + [QueryPrecision(rows, qs[i], corpusAsins, similarity, argsortTop)])[j]
    {
      assert qs[..i + 1][j] == qs[j];
      if j < i {
        assert qs[..i][j] == qs[j];
      }
    }
  }

  /** Visiting one more query appends its recall. */
  lemma RecallsStep(rows: seq<Row>, qs: seq<string>, i: nat, corpusAsins: seq<string>,
                    similarity: (string, nat) -> int, argsortTop: seq<int> -> seq<nat>)
    requires forall s {:trigger IsTopK(s, K, argsortTop(s))} :: IsTopK(s, K, argsortTop(s))
    requires i < |qs| && forall j :: 0 <= j < |qs| ==> qs[j] in Queries(rows)
    ensures RecallsFor(rows, qs[..i + 1], corpusAsins, similarity, argsortTop)
      == RecallsFor(rows, qs[..i], corpusAsins, similarity, argsortTop)
         + [QueryRecall(rows, qs[i], corpusAsins, similarity, argsortTop)]
  {
    assert forall j :: 0 <= j < i + 1 ==> qs[..i + 1][j] == qs[j];
    assert forall j :: 0 <= j < i ==> qs[..i][j] == qs[j];
    var rs := RecallsFor(rows, qs[..i + 1], corpusAsins, similarity, argsortTop);
    var rs' := RecallsFor(rows, qs[..i], corpusAsins, similarity, argsortTop);
    forall j | 0 <= j <= i
      ensures rs[j] == (rs' + [QueryRecall(rows, qs[i], corpusAsins, similarity, argsortTop)])[j]
    {
      assert qs[..i + 1][j] == qs[j];
      if j < i {
        assert qs[..i][j] == qs[j];
      }
    }
  }

  /** The loop over the queries `qs`, appending each query's precision and
      recall. */
  method EvaluateQueries(rows: seq<Row>, qs: seq<string>, queryToRelevant: map<string, set<string>>,
                         corpusAsins: seq<string>, similarity: (string, nat) -> int,
                         argsortTop: seq<int> -> seq<nat>)
    returns (precisions: seq<real>, recalls: seq<real>)
    requires forall s {:trigger IsTopK(s, K, argsortTop(s))} :: IsTopK(s, K, argsortTop(s))
    requires (forall i :: 0 <= i < |qs| ==> qs[i] in Queries(rows)) && queryToRelevant == QueryToRelevant(rows)
    ensures precisions == PrecisionsFor(rows, qs, corpusAsins, similarity, argsortTop)
    ensures recalls == RecallsFor(rows, qs, corpusAsins, similarity, argsortTop)
  {
    precisions, recalls := [], [];
    var i := 0;
    while i < |qs|
      invariant 0 <= i <= |qs|
      invariant precisions == PrecisionsFor(rows, qs[..i], corpusAsins, similarity, argsortTop)
      invariant recalls == RecallsFor(rows, qs[..i], corpusAsins, similarity, argsortTop)
    {
      var precision, recall := EvaluateQuery(rows, qs[i], queryToRelevant, corpusAsins, similarity, argsortTop);
      PrecisionsStep(rows, qs, i, corpusAsins, similarity, argsortTop);
      RecallsStep(rows, qs, i, corpusAsins, similarity, argsortTop);
      precisions := precisions + [precision];
      recalls := recalls + [recall];
      i := i + 1;
    }
    assert qs[..i] == qs;
  }

  /** The whole evaluation. `corpusAsins` is the metadata column, one entry
      per product embedding; `similarity` stands for encoding a cleaned query
      and taking its cosine similarity with a product embedding; `argsortTop`
      for `np.argsort(...)[::-1][:k]`. */
  method Evaluate(rows: seq<Row>, corpusAsins: seq<string>, similarity: (string, nat) -> int,
                  argsortTop: seq<int> -> seq<nat>)
    returns (precisions: seq<real>, recalls: seq<real>, meanPrecision: Option<real>, meanRecall: Option<real>)
    requires forall s {:trigger IsTopK(s, K, argsortTop(s))} :: IsTopK(s, K, argsortTop(s))
    ensures precisions == PrecisionsFor(rows, Queries(rows), corpusAsins, similarity, argsortTop)
    ensures recalls == RecallsFor(rows, Queries(rows), corpusAsins, similarity, argsortTop)
    ensures meanPrecision == Mean(precisions) && meanRecall == Mean(recalls)
    ensures meanPrecision.Some? ==> 0.0 <= meanPrecision.value <= 1.0
    ensures meanRecall.Some? ==> 0.0 <= meanRecall.value <= K as real
  {
    var queries := Queries(rows);
    var queryToRelevant := QueryToRelevant(rows);
    precisions, recalls := EvaluateQueries(rows, queries, queryToRelevant, corpusAsins, similarity, argsortTop);
    meanPrecision := Mean(precisions);
    meanRecall := Mean(recalls);
    MeansInRange(rows, queries, corpusAsins, similarity, argsortTop);
  }

  /** The mean precision lies in [0, 1] and the mean recall in [0, k]. */
  lemma MeansInRange(rows: seq<Row>, qs: seq<string>, corpusAsins: seq<string>,
                     similarity: (string, nat) -> int, argsortTop: seq<int> -> seq<nat>)
    requires forall s {:trigger IsTopK(s, K, argsortTop(s))} :: IsTopK(s, K, argsortTop(s))
    requires forall i :: 0 <= i < |qs| ==> qs[i] in Queries(rows)
    ensures var m := Mean(PrecisionsFor(rows, qs, corpusAsins, similarity, argsortTop));
      m.Some? ==> 0.0 <= m.value <= 1.0
    ensures var m := Mean(RecallsFor(rows, qs, corpusAsins, similarity, argsortTop));
      m.Some? ==> 0.0 <= m.value <= K as real
  {
    if |qs| > 0 {
      PrecisionsInUnitRange(rows, qs, corpusAsins, similarity, argsortTop);
      MeanBounds(PrecisionsFor(rows, qs, corpusAsins, similarity, argsortTop), 0.0, 1.0);
      RecallsInRange(rows, qs, corpusAsins, similarity, argsortTop);
      MeanBounds(RecallsFor(rows, qs, corpusAsins, similarity, argsortTop), 0.0, K as real);
    }
  }
}

/** The classifier: distances, the k nearest indices, their labels, the vote. */
module Knn {
  import opened Distance
  import opened Neighbours
  import opened Vote

  /** The labels of the selected training indices, position by position. */
  function NeighbourLabels(labels: seq<int>, idx: seq<nat>): (r: seq<int>)
    requires InRange(idx, |labels|)
    ensures |r| == |idx|
    ensures forall j :: 0 <= j < |idx| ==> r[j] == labels[idx[j]]
    ensures forall l :: l in r ==> l in labels
  {
    if idx == [] then [] else [labels[idx[0]]] + NeighbourLabels(labels, idx[1..])
  }

  /** The training data is well formed: one label per point, at least one
      point, every point of the query's dimension, and a positive k. */
  predicate ValidInput(train: seq<Point>, labels: seq<int>, query: Point, k: nat)
  {
    |train| == |labels| && |train| > 0 && k > 0 && SameDimension(train, query)
  }

  /** The k indices the classifier selects, as a value. */
  function Selected(train: seq<Point>, query: Point, k: nat): (idx: seq<nat>)
    requires SameDimension(train, query)
    ensures |idx| == Min(k, |train|) && InRange(idx, |train|) && Distinct(idx)
    ensures forall i, j :: i in idx && 0 <= j < |train| && j !in idx ==>
      SqDist(train[i], query) <= SqDist(train[j], query)
  {
    KNearest(DistanceList(train, query), k)
  }

  /** The label the classifier predicts, as a value. */
  function Prediction(train: seq<Point>, labels: seq<int>, query: Point, k: nat): (r: int)
    requires ValidInput(train, labels, query, k)
    ensures r in labels
  {
    MostCommon(NeighbourLabels(labels, Selected(train, query, k)))
  }

  /** Predicts the label of `query` from its k nearest training points. */
  method Classify(train: seq<Point>, labels: seq<int>, query: Point, k: nat) returns (predicted: int)
    requires ValidInput(train, labels, query, k)
    ensures predicted in labels
    ensures IsFirstMostCommon(NeighbourLabels(labels, Selected(train, query, k)), predicted)
    ensures predicted == Prediction(train, labels, query, k)
  {
    var distances := Distances(train, query);
    var kIndices := KNearest(distances, k);
    var kNearestLabels := NeighbourLabels(labels, kIndices);
    predicted := MostCommon(kNearestLabels);
    MostCommonIsFirstMostCommon(kNearestLabels);
  }

  /** A training point equal to the query is at distance zero, and the
      nearest selected neighbour is then at distance zero too. */
  lemma ExactMatchIsNearest(train: seq<Point>, query: Point, k: nat, i: nat)
    requires SameDimension(train, query) && k > 0
    requires i < |train| && train[i] == query
    ensures |Selected(train, query, k)| > 0
    ensures train[Selected(train, query, k)[0]] == query
  {
    var ds := DistanceList(train, query);
    var idx := Selected(train, query, k);
    assert ds[i] == 0;
    assert ds[idx[0]] <= 0 by {
      if i in idx {
        var p :| 0 <= p < |idx| && idx[p] == i;
      }
    }
  }

  /** Dropping the largest index from a permutation of 0 .. n-1 leaves a
      permutation of 0 .. n-2. */
  lemma RemoveLastIndex(order: seq<nat>, n: nat, p: nat)
    requires IsIndexPermutation(order, n) && p < n && order[p] == n - 1
    ensures IsIndexPermutation(order[..p] + order[p + 1..], n - 1)
  {
    var rest := order[..p] + order[p + 1..];
    assert forall j :: 0 <= j < |rest| ==> rest[j] == if j < p then order[j] else order[j + 1];
    forall i: nat | i < n - 1 ensures i in rest {
      assert i in order;
      var q :| 0 <= q < n && order[q] == i;
      if q < p { assert rest[q] == i; } else { assert rest[q - 1] == i; }
    }
  }

  lemma NeighbourLabelsConcat(labels: seq<int>, a: seq<nat>, b: seq<nat>)
    requires InRange(a, |labels|) && InRange(b, |labels|)
    ensures InRange(a + b, |labels|)
    ensures NeighbourLabels(labels, a + b) == NeighbourLabels(labels, a) + NeighbourLabels(labels, b)
  {
  }

  lemma NeighbourLabelsOfPrefix(labels: seq<int>, m: nat, idx: seq<nat>)
    requires m <= |labels| && InRange(idx, m)
    ensures InRange(idx, |labels|)
    ensures NeighbourLabels(labels[..m], idx) == NeighbourLabels(labels, idx)
  {
  }

  /** Looking up the labels of `order` with the index n - 1 at position p
      gives the labels of the other indices with `labels[n - 1]` spliced in. */
  lemma SplitAtLastIndex(labels: seq<int>, order: seq<nat>, p: nat, x: int)
    requires |labels| > 0 && InRange(order, |labels|) && p < |order| && order[p] == |labels| - 1
    requires InRange(order[..p] + order[p + 1..], |labels| - 1)
    ensures Count(NeighbourLabels(labels, order), x) ==
      Count(NeighbourLabels(labels[..|labels| - 1], order[..p] + order[p + 1..]), x) +
      (if labels[|labels| - 1] == x then 1 else 0)
  {
    var last := |labels| - 1;
    var before, after := order[..p], order[p + 1..];
    NeighbourLabelsOfPrefix(labels, last, before + after);
    var sb, sa := NeighbourLabels(labels, before), NeighbourLabels(labels, after);
    assert order == before + ([last] + after);
    NeighbourLabelsConcat(labels, [last], after);
    NeighbourLabelsConcat(labels, before, [last] + after);
    NeighbourLabelsConcat(labels, before, after);
    CountConcat(sb, sa, x);
    CountConcat(sb, [labels[last]] + sa, x);
    CountConcat([labels[last]], sa, x);
  }

  /** Looking up the labels of a permutation of all indices preserves how
      often every label occurs. */
  lemma {:induction false} PermutedLabelsCount(labels: seq<int>, order: seq<nat>, x: int)
    requires IsIndexPermutation(order, |labels|)
    ensures Count(NeighbourLabels(labels, order), x) == Count(labels, x)
    decreases |labels|
  {
    if labels != [] {
      var n := |labels|;
      var last: nat := n - 1;
      assert last in order;
      var p :| 0 <= p < n && order[p] == last;
      RemoveLastIndex(order, n, p);
      PermutedLabelsCount(labels[..n - 1], order[..p] + order[p + 1..], x);
      SplitAtLastIndex(labels, order, p, x);
    }
  }

  /** With k at least the number of training points every point is a
      neighbour, so the prediction is a label that occurs most often in the
      whole training set. */
  lemma AllNeighboursGiveMajority(train: seq<Point>, labels: seq<int>, query: Point, k: nat)
    requires ValidInput(train, labels, query, k) && k >= |train|
    ensures forall x :: x in labels ==> Count(labels, x) <= Count(labels, Prediction(train, labels, query, k))
  {
    var predicted := Prediction(train, labels, query, k);
    var ds := DistanceList(train, query);
    var order := Argsort(ds);
    assert Selected(train, query, k) == order;
    var s := NeighbourLabels(labels, order);
    MostCommonIsFirstMostCommon(s);
    PermutedLabelsCount(labels, order, predicted);
    forall x | x in labels ensures Count(labels, x) <= Count(labels, predicted) {
      PermutedLabelsCount(labels, order, x);
      assert x in s;
    }
  }
}

/** The fixed data set the script classifies: six labelled points in the
    plane and the query (5, 5). */
module Example {
  import opened Distance
  import opened Neighbours
  import opened Vote
  import opened Knn

  const TrainPoints: seq<Point> := [[1, 2], [2, 3], [3, 1], [6, 5], [7, 8], [8, 6]]
  const TrainLabels: seq<int> := [0, 0, 0, 1, 1, 1]
  const Query: Point := [5, 5]
  const K: nat := 3

  /** Squared distances of the six points from the query; points 1 and 4 tie at 13. */
  const ExampleDistances: seq<int> := [25, 13, 20, 1, 13, 10]

  lemma DistancesOfExample()
    ensures SameDimension(TrainPoints, Query)
    ensures DistanceList(TrainPoints, Query) == ExampleDistances
  {
  }

  /** Every ascending order of the example distances is 3, 5, then 1 and 4 in
      either order, then 2, then 0. */
  lemma {:induction false} AscendingOrdersOfExample(order: seq<nat>)
    requires IsAscendingOrder(ExampleDistances, order)
    ensures order[0] == 3 && order[1] == 5
    ensures (order[2] == 1 && order[3] == 4) || (order[2] == 4 && order[3] == 1)
    ensures order[4] == 2 && order[5] == 0
  {
    var ds := ExampleDistances;
    assert forall p :: 0 <= p < 6 ==> order[p] < 6;
    assert 3 in order && 5 in order && 1 in order && 4 in order && 2 in order && 0 in order;
    var p3 :| 0 <= p3 < 6 && order[p3] == 3;
    assert ds[order[0]] <= ds[order[p3]];
    assert order[0] == 3;
    var p5 :| 0 <= p5 < 6 && order[p5] == 5;
    assert order[1] != 3 && ds[order[1]] <= ds[order[p5]];
    assert order[1] == 5;
    var p1 :| 0 <= p1 < 6 && order[p1] == 1;
    var p4 :| 0 <= p4 < 6 && order[p4] == 4;
    assert order[2] != 3 && order[2] != 5 && ds[order[2]] <= ds[order[p1]];
    assert order[2] == 1 || order[2] == 4;
    var q := if order[2] == 1 then p4 else p1;
    assert order[3] != 3 && order[3] != 5 && order[3] != order[2] && ds[order[3]] <= ds[order[q]];
    var p2 :| 0 <= p2 < 6 && order[p2] == 2;
    assert ds[order[4]] <= ds[order[p2]];
    assert order[4] == 2;
  }

  /** A label sequence over {0, 1} that starts with 1 and holds no more 0s
      than 1s votes 1. */
  lemma OneWinsWhenFirstAndNotOutnumbered(s: seq<int>)
    requires |s| > 0 && s[0] == 1
    requires forall j :: 0 <= j < |s| ==> s[j] == 0 || s[j] == 1
    requires Count(s, 0) <= Count(s, 1)
    ensures MostCommon(s) == 1
  {
    assert FirstIndex(s, 1) == 0;
    assert IsFirstMostCommon(s, 1);
    MostCommonIsFirstMostCommon(s);
    FirstMostCommonUnique(s, 1, MostCommon(s));
  }

  /** Neighbour labels when point 1 is ranked before point 4. */
  lemma PrefixVotesOneWhenTieOrderedByIndex(m: nat)
    requires 1 <= m <= 6
    ensures MostCommon([1, 1, 0, 1, 0, 0][..m]) == 1
  {
    var all := [1, 1, 0, 1, 0, 0];
    if m == 1 { assert all[..m] == [1]; OneWinsWhenFirstAndNotOutnumbered([1]); }
    else if m == 2 { assert all[..m] == [1, 1]; OneWinsWhenFirstAndNotOutnumbered([1, 1]); }
    else if m == 3 { assert all[..m] == [1, 1, 0]; OneWinsWhenFirstAndNotOutnumbered([1, 1, 0]); }
    else if m == 4 { assert all[..m] == [1, 1, 0, 1]; OneWinsWhenFirstAndNotOutnumbered([1, 1, 0, 1]); }
    else if m == 5 { assert all[..m] == [1, 1, 0, 1, 0]; OneWinsWhenFirstAndNotOutnumbered([1, 1, 0, 1, 0]); }
    else {
      assert all[..m] == all && all == [1, 1, 0] + [1, 0, 0];
      CountConcat([1, 1, 0], [1, 0, 0], 0);
      CountConcat([1, 1, 0], [1, 0, 0], 1);
      OneWinsWhenFirstAndNotOutnumbered(all);
    }
  }

  /** Neighbour labels when point 4 is ranked before point 1. */
  lemma PrefixVotesOneWhenTieReversed(m: nat)
    requires 1 <= m <= 6
    ensures MostCommon([1, 1, 1, 0, 0, 0][..m]) == 1
  {
    var all := [1, 1, 1, 0, 0, 0];
    if m == 1 { assert all[..m] == [1]; OneWinsWhenFirstAndNotOutnumbered([1]); }
    else if m == 2 { assert all[..m] == [1, 1]; OneWinsWhenFirstAndNotOutnumbered([1, 1]); }
    else if m == 3 { assert all[..m] == [1, 1, 1]; OneWinsWhenFirstAndNotOutnumbered([1, 1, 1]); }
    else if m == 4 { assert all[..m] == [1, 1, 1, 0]; OneWinsWhenFirstAndNotOutnumbered([1, 1, 1, 0]); }
    else if m == 5 { assert all[..m] == [1, 1, 1, 0, 0]; OneWinsWhenFirstAndNotOutnumbered([1, 1, 1, 0, 0]); }
    else {
      assert all[..m] == all && all == [1, 1, 1] + [0, 0, 0];
      CountConcat([1, 1, 1], [0, 0, 0], 0);
      CountConcat([1, 1, 1], [0, 0, 0], 1);
      OneWinsWhenFirstAndNotOutnumbered(all);
    }
  }

  /** Whatever ascending order is used and whatever positive k, the vote on
      the example is 1: with k = 3 two of the three nearest are labelled 1,
      and from k = 6 on the 3-3 tie goes to the label of the nearest point. */
  lemma {:induction false} ExampleVotesOne(order: seq<nat>, k: nat)
    requires IsAscendingOrder(ExampleDistances, order) && k > 0
    ensures MostCommon(NeighbourLabels(TrainLabels, order[..Min(k, 6)])) == 1
  {
    AscendingOrdersOfExample(order);
    var all := NeighbourLabels(TrainLabels, order);
    var m := Min(k, 6);
    var s := NeighbourLabels(TrainLabels, order[..m]);
    assert s == all[..m];
    assert all == [1, 1, 0, 1, 0, 0] || all == [1, 1, 1, 0, 0, 0];
    if all == [1, 1, 0, 1, 0, 0] {
      PrefixVotesOneWhenTieOrderedByIndex(m);
    } else {
      PrefixVotesOneWhenTieReversed(m);
    }
  }


  /** The classifier predicts 1 on the example, for every positive k. */
  lemma ExampleClassifiesAsOne(k: nat)
    requires k > 0
    ensures ValidInput(TrainPoints, TrainLabels, Query, k)
    ensures Prediction(TrainPoints, TrainLabels, Query, k) == 1
  {
    DistancesOfExample();
    var order := Argsort(ExampleDistances);
    assert Selected(TrainPoints, Query, k) == order[..Min(k, 6)];
    ExampleVotesOne(order, k);
  }
}

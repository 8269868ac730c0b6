# k-nearest-neighbours classifier, modelled in Dafny

`algorithms/knns.py` classifies one query point against a small labelled
training set. It runs in three steps:

1. **Distances.** A loop appends the Euclidean distance from each training
   point to the query.
2. **Neighbours.** `np.argsort` orders the training indices by ascending
   distance. The first `k` are kept, and their labels are looked up.
3. **Vote.** `Counter(...).most_common(1)` returns the most common neighbour
   label.

The model turns the script's globals into parameters:

- points are `seq<int>` vectors;
- labels are `int`s;
- the query and `k` are arguments of `Knn.Classify`.

The Dafny files:

- `distance.dfy` (module `Distance`) holds the squared distance `SqDist` and
  the distance loop `Distances`. The loop is a method with invariants.
  `DistanceList` is the same list as a value.
- `neighbours.dfy` (module `Neighbours`) holds `Argsort` and `KNearest`.
  - `Argsort` is an insertion sort of the indices. It is stable: among equal
    distances the lower index comes first.
  - `KNearest` takes the first `min(k, n)` indices, as Python slicing does.
  - `IsAscendingOrder` describes every order an ascending argsort could
    return, whatever it does with ties. The neighbour properties are proved
    for all such orders (`PrefixIsNearest`).
- `vote.dfy` (module `Vote`) models the counter.
  - The counter is a list of `(key, count)` entries. Keys are kept in the
    order they were first seen, as a Python dictionary keeps them (`Bump`,
    `Tally`).
  - `most_common(1)` picks the first entry with the largest count
    (`FirstMaxIndex`). This is what Python's `max` does with a key function.
  - `IsFirstMostCommon` is an independent description of the winner. The
    winner occurs in the labels, and no label occurs more often. Among labels
    with the top count, it is the one that occurs first.
  - `MostCommonIsFirstMostCommon` proves the vote meets that description.
    `FirstMostCommonUnique` proves only one label can meet it.
- `knn.dfy` (module `Knn`) holds the label lookup, the classifier and the
  lemmas that relate its result to the training data.
- `example.dfy` (module `Example`) holds the script's own data set: six
  points, labels `0 0 0 1 1 1` and the query `(5, 5)`.

The counter is built from the neighbour labels in **distance** order, not in
training order. So when two labels tie on count, the winner is the label
that occurs first among the nearest neighbours. Take the example data with
any `k >= 6`: all six points vote and the count is 3 to 3. The nearest point,
`(6, 5)`, has label 1, so the script predicts **1**. Counting in training
order would give 0 here; the code counts in distance order, so it gives 1,
and `Example.ExampleVotesOne` proves 1 for every positive `k`.

## Model

| member | source | states |
|---|---|---|
| Distance.SqDist | algorithms/knns.py:22 | The distance is never negative. It is zero exactly when the training point equals the query. |
| Distance.DistanceList | algorithms/knns.py:20-23 | The distance list as a value: one entry per training point, never negative, and zero exactly at the points equal to the query. |
| Distance.Distances | algorithms/knns.py:20-23 | The list has one entry per training point, in training order. Entry `i` is the distance from point `i` to the query. |
| Neighbours.Sort | algorithms/knns.py:27 | The result holds the same distinct indices as the input. They are ordered by distance, and ties go by index. |
| Neighbours.Argsort | algorithms/knns.py:27 | The result is a permutation of `0..n-1` in ascending distance order. Among equal distances, the lower index comes first. |
| Neighbours.PrefixIsNearest | algorithms/knns.py:27 | Take any order that is ascending in distance. Every index in its first `m` is at most as far as every index outside it. |
| Neighbours.KNearest | algorithms/knns.py:26-27 | There are `min(k, n)` selected indices. They are distinct and lie in `[0, n)`. They are in non-decreasing distance order. No selected index is farther than an unselected one. |
| Knn.Selected | algorithms/knns.py:26-27 | The selected indices of the training points: `min(k, n)` distinct indices in `[0, n)`, none farther from the query than any unselected point. |
| Knn.NeighbourLabels | algorithms/knns.py:28 | Position `j` holds the label of the `j`-th selected index. Every label in the result is a training label. |
| Vote.Bump | algorithms/knns.py:31 | Counting one more `x`: an existing entry for `x` goes up by one where it stands. A new `x` is appended with count 1. Keys stay distinct. |
| Vote.Tally | algorithms/knns.py:31 | The counter built from the neighbour labels has one entry per key; its keys, counts and order are given by `TallyKeys`, `TallyCounts` and `TallyOrder`. |
| Vote.TallyKeys | algorithms/knns.py:31 | The counter has an entry for exactly the labels that occur. |
| Vote.TallyCounts | algorithms/knns.py:31 | Each entry's count is the number of occurrences of its label. |
| Vote.TallyOrder | algorithms/knns.py:31 | The entries are in the order in which their labels first occur. |
| Vote.FirstMaxIndex | algorithms/knns.py:31 | The result points at an entry with the largest count. Every earlier entry has a strictly smaller count. |
| Vote.CountConcat | algorithms/knns.py:31 | The count of a label in two joined lists is the sum of its counts in each. |
| Vote.MostCommon | algorithms/knns.py:31-32 | The predicted label is one of the neighbour labels. |
| Vote.MostCommonIsFirstMostCommon | algorithms/knns.py:31-32 | No label occurs more often than the prediction. Among labels with the top count, the prediction occurs first in the neighbour labels. |
| Vote.FirstMostCommonUnique | algorithms/knns.py:31-32 | At most one label meets that description, so it fixes the vote completely. |
| Knn.Prediction | algorithms/knns.py:26-32 | For every valid input, the predicted label is one of the training labels. |
| Knn.Classify | algorithms/knns.py:20-32 | The prediction is a training label. It is the first-most-common label among the labels of the selected nearest indices. It equals `Prediction`, so every lemma about `Prediction` holds for the method's result. |
| Knn.ExactMatchIsNearest | algorithms/knns.py:22-27 | Suppose a training point equals the query. Then the first selected neighbour is a point equal to the query. |
| Knn.PermutedLabelsCount | algorithms/knns.py:27-28 | The labels looked up along a permutation of all indices hold each label as often as the training labels do. |
| Knn.AllNeighboursGiveMajority | algorithms/knns.py:26-32 | When `k >= n`, no label occurs more often in the whole training set than the prediction. |
| Example.DistancesOfExample | algorithms/knns.py:5-23 | On the example, the squared distances are 25, 13, 20, 1, 13, 10. |
| Example.AscendingOrdersOfExample | algorithms/knns.py:5-27 | Every ascending order of those distances is 3, 5, then {1, 4} in either order, then 2, then 0. |
| Example.ExampleVotesOne | algorithms/knns.py:5-32 | On the example, with any ascending order and any `k > 0`, the vote is 1. |
| Example.ExampleClassifiesAsOne | algorithms/knns.py:5-32 | On the example, the classifier predicts 1 for every `k > 0`. |

## Left out

- The `print` of the result (algorithms/knns.py:34) is I/O and is not modelled.
- Distance.SqDist: the model is exact only while every squared distance is
  below 2^52. The source squares and sums in 64-bit integers, which wrap
  silently (a coordinate difference of 2^32 squares to 0), and `np.sqrt`
  rounds to a 64-bit float, so distinct squared distances of 2^52 or more can
  become equal. The model uses unbounded integers and no square root; the
  wrap-around and these rounding ties are not modelled.
- NumPy arrays and their vectorised arithmetic are library behaviour. Points
  are `seq<int>` and the labels are a `seq<int>`.
- Neighbours.Argsort: the model does not use the internals of NumPy's default
  sort. It fixes a stable order. Properties that must not depend on the tie
  order are stated over `IsAscendingOrder`.
- Knn.Classify: the source does no input validation. Its callers must supply
  `k > 0`, a non-empty training set, one label per point and points of the
  query's dimension. With no neighbours, `most_common(1)[0]` would raise an
  `IndexError`. A negative `k` would slice from the end. Neither case is
  modelled.

/** Ordering training indices by ascending distance and keeping the first k.
    The ordering is modelled as a stable sort: among equal distances the lower
    training index comes first. Properties of the selected neighbours are also
    stated for every ordering that is merely ascending in distance. */
module Neighbours {

  /** Every index in `xs` addresses one of `n` training points. */
  predicate InRange(xs: seq<nat>, n: nat)
  {
    forall j :: 0 <= j < |xs| ==> xs[j] < n
  }

  /** No index occurs twice. */
  predicate Distinct(xs: seq<nat>)
  {
    forall i, j :: 0 <= i < j < |xs| ==> xs[i] != xs[j]
  }

  /** The indices appear in non-decreasing distance order. */
  predicate Ascending(ds: seq<int>, xs: seq<nat>)
    requires InRange(xs, |ds|)
  {
    forall i, j :: 0 <= i <= j < |xs| ==> ds[xs[i]] <= ds[xs[j]]
  }

  /** `order` lists each of the indices 0 .. n-1 exactly once. */
  predicate IsIndexPermutation(order: seq<nat>, n: nat)
  {
    && |order| == n
    && InRange(order, n)
    && Distinct(order)
    && forall i: nat :: i < n ==> i in order
  }

  /** Any result an ascending argsort may return, whatever its tie order. */
  predicate IsAscendingOrder(ds: seq<int>, order: seq<nat>)
  {
    IsIndexPermutation(order, |ds|) && Ascending(ds, order)
  }

  /** The stable sort key: smaller distance first, then smaller index. */
  predicate Before(ds: seq<int>, a: nat, b: nat)
    requires a < |ds| && b < |ds|
  {
    ds[a] < ds[b] || (ds[a] == ds[b] && a <= b)
  }

  predicate SortedBy(ds: seq<int>, xs: seq<nat>)
    requires InRange(xs, |ds|)
  {
    forall i, j :: 0 <= i < j < |xs| ==> Before(ds, xs[i], xs[j])
  }

  /** Inserts index `x` into the sorted index list `s`. */
  function Insert(ds: seq<int>, x: nat, s: seq<nat>): (r: seq<nat>)
    requires x < |ds| && InRange(s, |ds|) && SortedBy(ds, s)
    requires Distinct(s) && x !in s
    ensures |r| == |s| + 1 && InRange(r, |ds|) && Distinct(r)
    ensures forall e :: e in r <==> e == x || e in s
    ensures SortedBy(ds, r)
    decreases |s|
  {
    if s == [] then [x]
    else if Before(ds, x, s[0]) then [x] + s
    else
      var tail := Insert(ds, x, s[1..]);
      assert forall e :: e in s[1..] ==> e in s;
      assert forall e :: e in tail ==> Before(ds, s[0], e) by {
        forall e | e in s[1..] ensures Before(ds, s[0], e) {
          var m :| 0 <= m < |s| - 1 && s[1..][m] == e;
          assert s[m + 1] == e;
        }
      }
      assert s[0] !in tail;
      [s[0]] + tail
  }

  /** Insertion sort of distinct indices by the stable key. */
  function Sort(ds: seq<int>, xs: seq<nat>): (r: seq<nat>)
    requires InRange(xs, |ds|) && Distinct(xs)
    ensures |r| == |xs| && InRange(r, |ds|) && Distinct(r)
    ensures forall e :: e in r <==> e in xs
    ensures SortedBy(ds, r)
    decreases |xs|
  {
    if xs == [] then []
    else
      var rest := Sort(ds, xs[1..]);
      assert forall e :: e in xs[1..] ==> e in xs;
      Insert(ds, xs[0], rest)
  }

  /** The indices 0 .. n-1 in increasing order. */
  function Iota(n: nat): (r: seq<nat>)
    ensures |r| == n && forall i :: 0 <= i < n ==> r[i] == i
  {
    if n == 0 then [] else Iota(n - 1) + [n - 1]
  }

  /** argsort of the distance list, stable on ties. */
  function Argsort(ds: seq<int>): (order: seq<nat>)
    ensures IsAscendingOrder(ds, order)
    ensures forall i, j :: 0 <= i < j < |order| && ds[order[i]] == ds[order[j]] ==> order[i] < order[j]
  {
    var ids := Iota(|ds|);
    var order := Sort(ds, ids);
    assert forall i: nat :: i < |ds| ==> i in order by {
      forall i: nat | i < |ds| ensures i in order {
        assert ids[i] == i;
      }
    }
    order
  }

  function Min(a: nat, b: nat): nat
  {
    if a <= b then a else b
  }

  /** Any prefix of any ascending order holds indices no farther than the rest. */
  lemma {:induction false} PrefixIsNearest(ds: seq<int>, order: seq<nat>, m: nat)
    requires IsAscendingOrder(ds, order) && m <= |ds|
    ensures forall i, j :: i in order[..m] && 0 <= j < |ds| && j !in order[..m] ==> ds[i] <= ds[j]
  {
    forall i, j | i in order[..m] && 0 <= j < |ds| && j !in order[..m]
      ensures ds[i] <= ds[j]
    {
      var q :| 0 <= q < m && order[q] == i;
      assert (j as nat) in order;
      var p :| 0 <= p < |order| && order[p] == j;
      forall t | 0 <= t < m ensures order[t] != j {
        assert order[..m][t] == order[t];
      }
    }
  }

  /** The first k indices of the argsort, with k clamped to the number of points. */
  function KNearest(ds: seq<int>, k: nat): (idx: seq<nat>)
    ensures |idx| == Min(k, |ds|)
    ensures InRange(idx, |ds|) && Distinct(idx)
    ensures Ascending(ds, idx)
    ensures forall i, j :: i in idx && 0 <= j < |ds| && j !in idx ==> ds[i] <= ds[j]
    ensures forall i, j :: 0 <= i < j < |idx| && ds[idx[i]] == ds[idx[j]] ==> idx[i] < idx[j]
  {
    var order := Argsort(ds);
    PrefixIsNearest(ds, order, Min(k, |ds|));
    order[..Min(k, |ds|)]
  }
}

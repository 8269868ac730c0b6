/** The majority vote over the neighbours' labels.
    A counter is a list of (label, count) entries in the order in which each
    label was first seen, as a Python dictionary keeps its keys; asking it for
    its single most common entry returns the first entry with the largest count. */
module Vote {

  /** Number of occurrences of `x` in `s`. */
  function Count(s: seq<int>, x: int): (c: nat)
    ensures c <= |s|
    ensures c > 0 <==> x in s
  {
    if s == [] then 0
    else
      var init := s[..|s| - 1];
      assert s == init + [s[|s| - 1]];
      Count(init, x) + (if s[|s| - 1] == x then 1 else 0)
  }

  /** Counting distributes over concatenation. */
  lemma {:induction false} CountConcat(a: seq<int>, b: seq<int>, x: int)
    ensures Count(a + b, x) == Count(a, x) + Count(b, x)
    decreases |b|
  {
    if b != [] {
      var b0 := b[..|b| - 1];
      assert (a + b)[..|a + b| - 1] == a + b0;
      assert (a + b)[|a + b| - 1] == b[|b| - 1];
      CountConcat(a, b0, x);
      assert Count(a + b, x) == Count(a + b0, x) + (if b[|b| - 1] == x then 1 else 0);
    } else {
      assert a + b == a;
    }
  }

  /** Position of the first occurrence of `x` in `s`. */
  function FirstIndex(s: seq<int>, x: int): (i: nat)
    requires x in s
    ensures i < |s| && s[i] == x
    ensures forall j :: 0 <= j < i ==> s[j] != x
  {
    var init := s[..|s| - 1];
    if x in init then
      var i := FirstIndex(init, x);
      assert s[i] == init[i];
      i
    else
      assert forall j :: 0 <= j < |s| - 1 ==> s[j] == init[j];
      |s| - 1
  }

  datatype Entry = Entry(key: int, count: nat)

  function Labels(t: seq<Entry>): (ls: seq<int>)
    ensures |ls| == |t|
    ensures forall i :: 0 <= i < |t| ==> ls[i] == t[i].key
  {
    if t == [] then [] else [t[0].key] + Labels(t[1..])
  }

  /** No label has two entries. */
  predicate DistinctLabels(t: seq<Entry>)
  {
    forall i, j :: 0 <= i < j < |t| ==> t[i].key != t[j].key
  }

  /** Adds one occurrence of `x`: an existing entry is incremented where it
      stands, a new label is appended with count 1. */
  function Bump(t: seq<Entry>, x: int): (r: seq<Entry>)
    requires DistinctLabels(t)
    ensures DistinctLabels(r)
    ensures x in Labels(t) ==> |r| == |t|
    ensures x in Labels(t) ==>
      forall i :: 0 <= i < |t| ==> r[i] == if t[i].key == x then Entry(x, t[i].count + 1) else t[i]
    ensures x !in Labels(t) ==> r == t + [Entry(x, 1)]
  {
    if t == [] then [Entry(x, 1)]
    else if t[0].key == x then [Entry(x, t[0].count + 1)] + t[1..]
    else
      var rest := Bump(t[1..], x);
      assert Labels(t) == [t[0].key] + Labels(t[1..]);
      [t[0]] + rest
  }

  /** The counter built from `s` by adding its elements left to right. */
  function Tally(s: seq<int>): (t: seq<Entry>)
    ensures DistinctLabels(t)
  {
    if s == [] then [] else Bump(Tally(s[..|s| - 1]), s[|s| - 1])
  }

  /** The counter holds an entry for exactly the labels of `s`. */
  lemma {:induction false} TallyKeys(s: seq<int>)
    ensures forall x :: x in Labels(Tally(s)) <==> x in s
  {
    if s != [] {
      var init, x := s[..|s| - 1], s[|s| - 1];
      assert s == init + [x];
      TallyKeys(init);
      var t0, t := Tally(init), Tally(s);
      if x in Labels(t0) {
        assert Labels(t) == Labels(t0);
      } else {
        assert Labels(t) == Labels(t0) + [x];
      }
    }
  }

  /** Each entry of the counter holds the number of occurrences of its label. */
  lemma {:induction false} TallyCounts(s: seq<int>)
    ensures forall i :: 0 <= i < |Tally(s)| ==> Tally(s)[i].count == Count(s, Tally(s)[i].key)
  {
    if s != [] {
      var init, x := s[..|s| - 1], s[|s| - 1];
      TallyCounts(init);
      var t0, t := Tally(init), Tally(s);
      if x !in Labels(t0) {
        TallyKeys(init);
        assert Count(init, x) == 0;
      }
    }
  }

  /** The counter's entries follow the order in which their labels first occur in `s`. */
  lemma {:induction false} TallyOrder(s: seq<int>)
    ensures forall i, j :: 0 <= i < j < |Tally(s)| ==>
      Tally(s)[i].key in s && Tally(s)[j].key in s &&
      FirstIndex(s, Tally(s)[i].key) < FirstIndex(s, Tally(s)[j].key)
  {
    TallyKeys(s);
    if s != [] {
      var init, x := s[..|s| - 1], s[|s| - 1];
      TallyOrder(init);
      TallyKeys(init);
      var t0, t := Tally(init), Tally(s);
      forall i | 0 <= i < |t0| ensures t[i].key == t0[i].key && FirstIndex(s, t[i].key) == FirstIndex(init, t0[i].key) {
        assert t0[i].key == Labels(t0)[i];
      }
      if x !in Labels(t0) {
        assert FirstIndex(s, x) == |s| - 1;
        assert t[|t| - 1].key == x;
      }
    }
  }

  /** Index of the first entry whose count is the largest. */
  function FirstMaxIndex(t: seq<Entry>): (m: nat)
    requires |t| > 0
    ensures m < |t|
    ensures forall j :: 0 <= j < |t| ==> t[j].count <= t[m].count
    ensures forall j :: 0 <= j < m ==> t[j].count < t[m].count
  {
    if |t| == 1 then 0
    else
      var m := FirstMaxIndex(t[..|t| - 1]);
      if t[|t| - 1].count > t[m].count then |t| - 1 else m
  }

  /** `v` occurs in `s`, no label occurs more often, and among the labels that
      occur as often `v` is the one seen first. */
  predicate IsFirstMostCommon(s: seq<int>, v: int)
  {
    && v in s
    && (forall x :: x in s ==> Count(s, x) <= Count(s, v))
    && (forall x :: x in s && Count(s, x) == Count(s, v) ==> FirstIndex(s, v) <= FirstIndex(s, x))
  }

  /** The label of the single most common counter entry. */
  function MostCommon(s: seq<int>): (v: int)
    requires |s| > 0
    ensures v in s
  {
    var t := Tally(s);
    TallyKeys(s);
    assert s[0] in s;
    t[FirstMaxIndex(t)].key
  }

  lemma MostCommonIsFirstMostCommon(s: seq<int>)
    requires |s| > 0
    ensures IsFirstMostCommon(s, MostCommon(s))
  {
    var t := Tally(s);
    TallyKeys(s);
    TallyCounts(s);
    TallyOrder(s);
    var m := FirstMaxIndex(t);
    var v := t[m].key;
    forall x | x in s
      ensures Count(s, x) <= Count(s, v)
      ensures Count(s, x) == Count(s, v) ==> FirstIndex(s, v) <= FirstIndex(s, x)
    {
      assert x in Labels(t);
      var i :| 0 <= i < |t| && Labels(t)[i] == x;
      assert t[i].key == x;
    }
  }

  /** The first-most-common label is unique, so it specifies the vote fully. */
  lemma FirstMostCommonUnique(s: seq<int>, v: int, w: int)
    requires IsFirstMostCommon(s, v) && IsFirstMostCommon(s, w)
    ensures v == w
  {
  }
}

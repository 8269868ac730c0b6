/** Distances from the query point to every training point.
    The Euclidean distance is kept squared: the square root is monotone, so
    ordering training points by squared distance orders them by distance. */
module Distance {

  /** A point is a fixed-dimension vector of integer coordinates. */
  type Point = seq<int>

  /** Every training point has the dimension of the query. */
  predicate SameDimension(train: seq<Point>, query: Point)
  {
    forall i :: 0 <= i < |train| ==> |train[i]| == |query|
  }

  /** Sum of squared coordinate differences of two points of equal dimension. */
  function SqDist(a: Point, b: Point): (d: int)
    requires |a| == |b|
    ensures d >= 0
    ensures d == 0 <==> a == b
    decreases |a|
  {
    if |a| == 0 then 0
    else
      var rest := SqDist(a[1..], b[1..]);
      assert a == [a[0]] + a[1..] && b == [b[0]] + b[1..];
      (a[0] - b[0]) * (a[0] - b[0]) + rest
  }

  /** The distance list as a value: one entry per training point, in order. */
  function DistanceList(train: seq<Point>, query: Point): (ds: seq<int>)
    requires SameDimension(train, query)
    ensures |ds| == |train|
    ensures forall i :: 0 <= i < |train| ==> ds[i] >= 0 && (ds[i] == 0 <==> train[i] == query)
  {
    seq(|train|, i requires 0 <= i < |train| => SqDist(train[i], query))
  }

  /** The loop that appends one distance per training point. */
  method Distances(train: seq<Point>, query: Point) returns (distances: seq<int>)
    requires SameDimension(train, query)
    ensures |distances| == |train|
    ensures forall i :: 0 <= i < |train| ==> distances[i] == SqDist(train[i], query)
    ensures distances == DistanceList(train, query)
  {
    distances := [];
    var i := 0;
    while i < |train|
      invariant 0 <= i <= |train|
      invariant |distances| == i
      invariant forall j :: 0 <= j < i ==> distances[j] == SqDist(train[j], query)
    {
      var distance := SqDist(train[i], query);
      distances := distances + [distance];
      i := i + 1;
    }
  }
}

/** TSP/Domain/Point.cs: a point of the plane, its value equality, its text form and
    the Euclidean cost between two points. The C# doubles are modelled as reals;
    `Math.Sqrt` and `double.ToString` are parameters (`sqrt`, `show`). */
module Points {
  import opened Results

  /** `new Point(X, Y)` stores exactly the given coordinates. */
  datatype Point = Point(x: real, y: real)

  /** What `Equals(object? obj)` can be handed: null, a Point, or an object of another type. */
  datatype Object = Null | PointObject(point: Point) | OtherObject

  /** `Point.Equals`: true for a non-null Point with the same X and the same Y. */
  function Equals(p: Point, obj: Object): (r: bool)
    ensures r <==> obj == PointObject(p)
  {
    match obj
    case PointObject(q) => p.x == q.x && p.y == q.y
    case _ => false
  }

  /** `Point.ToString()`: "Point(" + X + ", " + Y + ")". */
  function ToString(p: Point, show: real -> string): (s: string)
    ensures |s| == 9 + |show(p.x)| + |show(p.y)|
    ensures s[..6] == "Point(" && s[|s| - 1] == ')'
  {
    "Point(" + show(p.x) + ", " + show(p.y) + ")"
  }

  /** The first position of `c` in `s`, or `|s|` when absent. */
  function IndexOf(s: string, c: char): (i: nat)
    ensures i <= |s|
    ensures i < |s| ==> s[i] == c
    ensures forall j :: 0 <= j < i ==> s[j] != c
  {
    if |s| == 0 then 0
    else if s[0] == c then 0
    else 1 + IndexOf(s[1..], c)
  }

  /** Reads the two coordinate texts back out of a `ToString` rendering. */
  function ParsePointText(s: string): (r: Option<(string, string)>)
    ensures r.Some? ==> ',' !in r.value.0
  {
    if |s| >= 9 && s[..6] == "Point(" && s[|s| - 1] == ')' then
      var inner := s[6..|s| - 1];
      var i := IndexOf(inner, ',');
      if i + 1 < |inner| && inner[i + 1] == ' ' then
        assert forall j :: 0 <= j < |inner[..i]| ==> inner[..i][j] == inner[j];
        Some((inner[..i], inner[i + 2..]))
      else None
    else None
  }

  lemma {:induction false} IndexOfFirst(a: string, c: char, b: string)
    requires c !in a
    ensures IndexOf(a + [c] + b, c) == |a|
  {
    if |a| > 0 {
      assert (a + [c] + b)[1..] == a[1..] + [c] + b;
      IndexOfFirst(a[1..], c, b);
    }
  }

  /** The rendering is unambiguous as long as the X text has no comma: both
      coordinate texts can be read back. */
  lemma ToStringRoundTrip(p: Point, show: real -> string)
    requires ',' !in show(p.x)
    ensures ParsePointText(ToString(p, show)) == Some((show(p.x), show(p.y)))
  {
    var s := ToString(p, show);
    var inner := s[6..|s| - 1];
    assert inner == show(p.x) + [','] + (" " + show(p.y));
    IndexOfFirst(show(p.x), ',', " " + show(p.y));
    assert inner[..|show(p.x)|] == show(p.x);
    assert inner[|show(p.x)| + 2..] == show(p.y);
  }

  /** The squared Euclidean distance. */
  function SquaredDistance(a: Point, b: Point): (d: real)
    ensures 0.0 <= d
  {
    (a.x - b.x) * (a.x - b.x) + (a.y - b.y) * (a.y - b.y)
  }

  /** The properties of `Math.Sqrt` on the non-negative reals the model relies on:
      it squares back to its argument, maps 0 to 0 and is strictly increasing. */
  ghost predicate IsSqrt(sqrt: real -> real) {
    && sqrt(0.0) == 0.0
    && (forall v :: 0.0 <= v ==> sqrt(v) * sqrt(v) == v)
    && (forall u, v :: 0.0 <= u < v ==> 0.0 <= sqrt(u) < sqrt(v))
  }

  /** `Point.CostTo`: the Euclidean distance, the square root of the squared distance. */
  function CostTo(a: Point, b: Point, sqrt: real -> real): (d: real)
    ensures IsSqrt(sqrt) ==> 0.0 <= d && d * d == SquaredDistance(a, b)
  {
    sqrt(SquaredDistance(a, b))
  }

  /** The cost does not depend on the direction of travel. */
  lemma CostToSymmetric(a: Point, b: Point, sqrt: real -> real)
    ensures CostTo(a, b, sqrt) == CostTo(b, a, sqrt)
  {
    assert (b.x - a.x) * (b.x - a.x) == (a.x - b.x) * (a.x - b.x);
    assert (b.y - a.y) * (b.y - a.y) == (a.y - b.y) * (a.y - b.y);
  }

  /** A point costs nothing to reach from itself. */
  lemma CostToSelf(p: Point, sqrt: real -> real)
    requires IsSqrt(sqrt)
    ensures CostTo(p, p, sqrt) == 0.0
  {
    assert SquaredDistance(p, p) == 0.0;
  }
}

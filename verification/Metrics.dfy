/** The distance functors of nanoflann: a per-axis term, its sum over the axes,
    and the two loops (plain, and unrolled four at a time) that evaluate the sum. */
module Metrics {

  type Point = seq<real>

  /** What accum_dist computes for one axis: (query coordinate, other coordinate). */
  type Axis = (real, real) -> real

  /** A distance functor: its per-axis term, and whether it evaluates four axes at a time
      (L1_Adaptor, L2_Adaptor) or hands the work to kdtree_distance (L2_Simple_Adaptor). */
  datatype Metric = Metric(term: Axis, unrolled: bool)

  /** The two properties of a per-axis term that the tree search relies on. */
  ghost predicate Sound(term: Axis) {
    && (forall a, b :: term(a, b) >= 0.0)
    && (forall v, c, p :: v <= c <= p || p <= c <= v ==> term(v, c) <= term(v, p))
  }

  function AbsDiff(a: real, b: real): real {
    if a - b < 0.0 then b - a else a - b
  }

  function SquaredDiff(a: real, b: real): real {
    (a - b) * (a - b)
  }

  const L1 := Metric(AbsDiff, true)
  const L2 := Metric(SquaredDiff, true)
  const L2Simple := Metric(SquaredDiff, false)

  /** All three shipped functors are usable with the tree. */
  lemma ShippedMetricsAreSound()
    ensures Sound(L1.term) && Sound(L2.term) && Sound(L2Simple.term)
  {
  }

  /** The term of L1 is the length of the way between two coordinates: the same in both directions,
      additive along the way, and the coordinate itself from zero. */
  lemma WayLaws(a: real, b: real, c: real)
    ensures L1.term(a, b) == L1.term(b, a)
    ensures a <= b <= c ==> L1.term(a, c) == L1.term(a, b) + L1.term(b, c)
    ensures a >= 0.0 ==> L1.term(0.0, a) == a
  {
  }

  /** The term of both L2 functors is the square of that length: unchanged when both coordinates
      move alike, one for one unit, and related by the parallelogram law. */
  lemma SquareLaws(a: real, b: real, c: real)
    ensures L2.term(a + c, b + c) == L2.term(a, b) == L2.term(b, a)
    ensures L2.term(0.0, 1.0) == 1.0
    ensures L2.term(a, b) + L2.term(a, c) == 2.0 * L2.term(a, (b + c) / 2.0) + L2.term(b, c) / 2.0
    ensures L2.term(a, b) == L1.term(a, b) * L1.term(a, b)
    ensures L2Simple.term(a, b) == L2.term(a, b)
  {
    MovedSquare(a, b, c);
    Parallelogram(a, b, c);
  }

  lemma MovedSquare(a: real, b: real, c: real)
    ensures SquaredDiff(a + c, b + c) == SquaredDiff(a, b) == SquaredDiff(b, a)
  {
    assert (a + c) - (b + c) == a - b;
  }

  lemma Parallelogram(a: real, b: real, c: real)
    ensures SquaredDiff(a, b) + SquaredDiff(a, c) == 2.0 * SquaredDiff(a, (b + c) / 2.0) + SquaredDiff(b, c) / 2.0
  {
  }

  /** The plain axis-by-axis sum over the first n axes. */
  function Partial(term: Axis, q: Point, p: Point, n: nat): real
    requires n <= |q| && n <= |p|
  {
    if n == 0 then 0.0 else Partial(term, q, p, n - 1) + term(q[n - 1], p[n - 1])
  }

  function Dist(term: Axis, q: Point, p: Point): real
    requires |q| == |p|
  {
    Partial(term, q, p, |q|)
  }

  lemma {:induction false} PartialConcat(term: Axis, q1: Point, q2: Point, p1: Point, p2: Point, n: nat)
    requires |q1| == |p1| && |q2| == |p2| && n <= |q2|
    ensures Partial(term, q1 + q2, p1 + p2, |q1| + n) == Partial(term, q1, p1, |q1|) + Partial(term, q2, p2, n)
  {
    if n > 0 {
      PartialConcat(term, q1, q2, p1, p2, n - 1);
    } else {
      PartialFront(term, q1, q1 + q2, p1, p1 + p2, |q1|);
    }
  }

  lemma {:induction false} PartialFront(term: Axis, q: Point, q': Point, p: Point, p': Point, n: nat)
    requires n <= |q| && n <= |p| && q <= q' && p <= p'
    ensures Partial(term, q', p', n) == Partial(term, q, p, n)
  {
    if n > 0 {
      PartialFront(term, q, q', p, p', n - 1);
    }
  }

  /** A distance adds up over the axes: nothing without axes, the term on one axis, and the sum of
      the distances over any two groups of axes. */
  lemma DistLaws(term: Axis, q1: Point, q2: Point, p1: Point, p2: Point, x: real, y: real)
    requires |q1| == |p1| && |q2| == |p2|
    ensures Dist(term, [], []) == 0.0 && Dist(term, [x], [y]) == term(x, y)
    ensures Dist(term, q1 + q2, p1 + p2) == Dist(term, q1, p1) + Dist(term, q2, p2)
  {
    PartialConcat(term, q1, q2, p1, p2, |q2|);
    assert Partial(term, [x], [y], 1) == Partial(term, [x], [y], 0) + term(x, y);
  }

  /** With the shipped functors, exactly the points that agree on every axis are at distance zero. */
  lemma {:induction false} ZeroDistance(m: Metric, q: Point, p: Point, n: nat)
    requires m in {L1, L2, L2Simple} && n <= |q| == |p|
    ensures Partial(m.term, q, p, n) == 0.0 <==> q[..n] == p[..n]
  {
    ShippedMetricsAreSound();
    if n > 0 {
      var a, b := q[n - 1], p[n - 1];
      ZeroDistance(m, q, p, n - 1);
      PartialMonotone(m.term, q, p, 0, n - 1);
      ZeroTerm(m, a, b);
      assert q[..n] == q[..n - 1] + [a] && p[..n] == p[..n - 1] + [b];
      assert q[..n] == p[..n] ==> q[..n][n - 1] == p[..n][n - 1] && q[..n][..n - 1] == p[..n][..n - 1];
    }
  }

  lemma ZeroTerm(m: Metric, a: real, b: real)
    requires m in {L1, L2, L2Simple}
    ensures m.term(a, b) >= 0.0
    ensures m.term(a, b) == 0.0 <==> a == b
  {
    hide SquaredDiff;
    if a < b {
      SquareAbove(b, a);
      MovedSquare(a, b, 0.0);
    } else if a > b {
      SquareAbove(a, b);
    } else {
      SquareOfNothing(a);
    }
  }

  lemma SquareAbove(a: real, b: real)
    requires a > b
    ensures SquaredDiff(a, b) > 0.0
  {
    var d, e := a - b, a - b;
    PositiveProduct(d, e);
    assert d * e == (a - b) * (a - b);
  }

  lemma PositiveProduct(x: real, y: real)
    requires x > 0.0 && y > 0.0
    ensures x * y > 0.0
  {
  }

  lemma SquareOfNothing(a: real)
    ensures SquaredDiff(a, a) == 0.0
  {
  }

  lemma SamePoint(m: Metric, q: Point, p: Point)
    requires m in {L1, L2, L2Simple} && |q| == |p|
    ensures Dist(m.term, q, p) == 0.0 <==> q == p
  {
    ZeroDistance(m, q, p, |q|);
    assert q[..|q|] == q && p[..|p|] == p;
  }

  /** Sound, at one pair and at one triple of coordinates. */
  lemma TermBounds(term: Axis, v: real, c: real, p: real)
    requires Sound(term)
    ensures term(v, p) >= 0.0
    ensures v <= c <= p || p <= c <= v ==> term(v, c) <= term(v, p)
  {
  }

  lemma {:induction false} PartialMonotone(term: Axis, q: Point, p: Point, m: nat, n: nat)
    requires m <= n <= |q| && n <= |p| && Sound(term)
    ensures 0.0 <= Partial(term, q, p, m) <= Partial(term, q, p, n)
    decreases n
  {
    if m < n {
      PartialMonotone(term, q, p, m, n - 1);
      TermBounds(term, q[n - 1], 0.0, p[n - 1]);
    } else if n > 0 {
      PartialMonotone(term, q, p, n - 1, n - 1);
      TermBounds(term, q[n - 1], 0.0, p[n - 1]);
    }
  }

  /** KDTreeVectorOfVectorsAdaptor::kdtree_distance, the loop L2_Simple_Adaptor calls. */
  method PlainDistance(term: Axis, q: Point, p: Point) returns (s: real)
    requires |q| == |p|
    ensures s == Dist(term, q, p)
  {
    s := 0.0;
    for i := 0 to |q|
      invariant s == Partial(term, q, p, i)
    {
      s := s + term(q[i], p[i]);
    }
  }

  /** L1_Adaptor/L2_Adaptor::operator(). With no limit (worstDist <= 0) the result is the
      plain sum. With a limit it is the plain sum or a partial sum already above the limit,
      so comparing it with the limit always gives the answer the plain sum would give. */
  method UnrolledDistance(term: Axis, q: Point, p: Point, worstDist: real := -1.0) returns (result: real)
    requires |q| == |p|
    ensures worstDist <= 0.0 ==> result == Dist(term, q, p)
    ensures result == Dist(term, q, p)
            || (worstDist > 0.0 && result > worstDist
                && exists j: nat :: 0 < j <= |q| && j % 4 == 0 && result == Partial(term, q, p, j))
    ensures Sound(term) ==> result <= Dist(term, q, p)
    ensures Sound(term) && worstDist > 0.0 ==> (result > worstDist <==> Dist(term, q, p) > worstDist)
  {
    result := 0.0;
    var a: nat := 0;
    while a < |q| - 3
      invariant a <= |q| && a % 4 == 0
      invariant result == Partial(term, q, p, a)
    {
      var diff0 := term(q[a], p[a]);
      var diff1 := term(q[a + 1], p[a + 1]);
      var diff2 := term(q[a + 2], p[a + 2]);
      var diff3 := term(q[a + 3], p[a + 3]);
      assert Partial(term, q, p, a + 2) == Partial(term, q, p, a) + diff0 + diff1;
      assert Partial(term, q, p, a + 4) == Partial(term, q, p, a + 2) + diff2 + diff3;
      result := result + (diff0 + diff1 + diff2 + diff3);
      a := a + 4;
      if worstDist > 0.0 && result > worstDist {
        if Sound(term) {
          PartialMonotone(term, q, p, a, |q|);
        }
        return;
      }
    }
    while a < |q|
      invariant a <= |q|
      invariant result == Partial(term, q, p, a)
    {
      result := result + term(q[a], p[a]);
      a := a + 1;
    }
  }

  /** The call distance(vec, index, dim) made at a leaf: no limit is passed. */
  method Evaluate(m: Metric, q: Point, p: Point) returns (d: real)
    requires |q| == |p|
    ensures d == Dist(m.term, q, p)
  {
    if m.unrolled {
      d := UnrolledDistance(m.term, q, p);
    } else {
      d := PlainDistance(m.term, q, p);
    }
  }
}

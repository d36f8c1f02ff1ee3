/** Choosing a cutting plane for a range of vind and partitioning the range by it, in place. */
module PlaneSplit {
  import opened PointSets

  /** ind points at position off of the index array and has count entries. */
  ghost predicate Slice(data: Dataset, dim: nat, ind: array<nat>, off: nat, count: nat)
    reads ind
  {
    Shaped(data, dim) && Indexes(data, ind[..]) && 1 <= count && off + count <= ind.Length
  }

  /** Whether a point belongs to the front: below the cut or, in the second pass, on it. */
  predicate Front(data: Dataset, i: nat, cutfeat: nat, cutval: real, keepEqual: bool)
    requires i < |data| && cutfeat < |data[i]|
  {
    data[i][cutfeat] < cutval || (keepEqual && data[i][cutfeat] == cutval)
  }

  ghost predicate AllFront(data: Dataset, dim: nat, v: seq<nat>, l: nat, r: nat, cutfeat: nat, cutval: real,
                           keepEqual: bool)
    requires Shaped(data, dim) && Indexes(data, v) && cutfeat < dim && r <= |v|
  {
    forall k :: l <= k < r ==> Front(data, v[k], cutfeat, cutval, keepEqual)
  }

  ghost predicate NoneFront(data: Dataset, dim: nat, v: seq<nat>, l: nat, r: nat, cutfeat: nat, cutval: real,
                            keepEqual: bool)
    requires Shaped(data, dim) && Indexes(data, v) && cutfeat < dim && r <= |v|
  {
    forall k :: l <= k < r ==> !Front(data, v[k], cutfeat, cutval, keepEqual)
  }

  /** std::swap of a misplaced pair: the front grows by one at each end of the gap, and the
      array stays a rearrangement of what it was `first`. */
  method Exchange(data: Dataset, ghost dim: nat, ind: array<nat>, i: nat, j: nat, ghost first: seq<nat>,
                  ghost l: nat, ghost r: nat, ghost cutfeat: nat, ghost cutval: real, ghost keepEqual: bool)
    requires Shaped(data, dim) && Indexes(data, ind[..]) && cutfeat < dim
    requires l <= i < j < r <= ind.Length
    requires Rearranged(first, ind[..], l, r)
    requires AllFront(data, dim, ind[..], l, i, cutfeat, cutval, keepEqual)
    requires NoneFront(data, dim, ind[..], j + 1, r, cutfeat, cutval, keepEqual)
    requires !Front(data, ind[i], cutfeat, cutval, keepEqual) && Front(data, ind[j], cutfeat, cutval, keepEqual)
    modifies ind
    ensures Indexes(data, ind[..]) && Rearranged(first, ind[..], l, r)
    ensures AllFront(data, dim, ind[..], l, i + 1, cutfeat, cutval, keepEqual)
    ensures NoneFront(data, dim, ind[..], j, r, cutfeat, cutval, keepEqual)
  {
    SwapRearranges(ind[..], i, j, l, r);
    ind[i], ind[j] := ind[j], ind[i];
    assert ind[..] == old(ind[..])[i := old(ind[j])][j := old(ind[i])];
  }

  /** The upward scan: stops at the first entry that does not belong to the front. */
  method ScanUp(data: Dataset, ghost dim: nat, ind: array<nat>, off: nat, from: nat, right: nat, cutfeat: nat,
                cutval: real, keepEqual: bool)
    returns (left: nat)
    requires Shaped(data, dim) && Indexes(data, ind[..]) && cutfeat < dim
    requires from <= right + 1 && off + right < ind.Length
    ensures from <= left <= right + 1
    ensures AllFront(data, dim, ind[..], off + from, off + left, cutfeat, cutval, keepEqual)
    ensures left <= right ==> !Front(data, ind[off + left], cutfeat, cutval, keepEqual)
  {
    left := from;
    while left <= right && Front(data, ind[off + left], cutfeat, cutval, keepEqual)
      invariant from <= left <= right + 1
      invariant AllFront(data, dim, ind[..], off + from, off + left, cutfeat, cutval, keepEqual)
    {
      left := left + 1;
    }
  }

  /** The downward scan: stops at the first entry that belongs to the front, when it meets
      the other end, or at zero, where an unsigned counter must not be decremented. */
  method ScanDown(data: Dataset, ghost dim: nat, ind: array<nat>, off: nat, left: nat, from: nat, cutfeat: nat,
                  cutval: real, keepEqual: bool)
    returns (right: nat)
    requires Shaped(data, dim) && Indexes(data, ind[..]) && cutfeat < dim
    requires left <= from + 1 && off + from < ind.Length
    ensures left <= right + 1 && right <= from
    ensures NoneFront(data, dim, ind[..], off + right + 1, off + from + 1, cutfeat, cutval, keepEqual)
    ensures left > right || right == 0 || Front(data, ind[off + right], cutfeat, cutval, keepEqual)
  {
    right := from;
    while right > 0 && left <= right && !Front(data, ind[off + right], cutfeat, cutval, keepEqual)
      invariant left <= right + 1 && right <= from
      invariant NoneFront(data, dim, ind[..], off + right + 1, off + from + 1, cutfeat, cutval, keepEqual)
    {
      right := right - 1;
    }
  }

  /** One of the two passes of planeSplit: whatever belongs to the front is swapped there. */
  method PartitionPass(data: Dataset, ghost dim: nat, ind: array<nat>, off: nat, count: nat, cutfeat: nat,
                       cutval: real, keepEqual: bool, from: nat)
    returns (left: nat)
    requires Slice(data, dim, ind, off, count) && cutfeat < dim && from <= count
    modifies ind
    ensures Slice(data, dim, ind, off, count)
    ensures from <= left <= count
    ensures Rearranged(old(ind[..]), ind[..], off + from, off + count)
    ensures AllFront(data, dim, ind[..], off + from, off + left, cutfeat, cutval, keepEqual)
    ensures NoneFront(data, dim, ind[..], off + left, off + count, cutfeat, cutval, keepEqual)
  {
    left := from;
    var right: nat := count - 1;
    while true
      invariant from <= left <= right + 1 <= count
      invariant Indexes(data, ind[..])
      invariant Rearranged(old(ind[..]), ind[..], off + from, off + count)
      invariant AllFront(data, dim, ind[..], off + from, off + left, cutfeat, cutval, keepEqual)
      invariant NoneFront(data, dim, ind[..], off + right + 1, off + count, cutfeat, cutval, keepEqual)
      decreases count - left
    {
      left := ScanUp(data, dim, ind, off, left, right, cutfeat, cutval, keepEqual);
      right := ScanDown(data, dim, ind, off, left, right, cutfeat, cutval, keepEqual);
      if left > right || right == 0 {
        break;
      }
      Exchange(data, dim, ind, off + left, off + right, old(ind[..]), off + from, off + count,
               cutfeat, cutval, keepEqual);
      left := left + 1;
      right := right - 1;
    }
  }

  /** Below the cut up to lim1, on it up to lim2, above it from there on. */
  ghost predicate ThreeWay(data: Dataset, dim: nat, v: seq<nat>, l: nat, r: nat, f: nat, cutval: real,
                           lim1: nat, lim2: nat)
    requires Range(data, dim, v, l, r) && f < dim
  {
    && lim1 <= lim2 <= r - l
    && (forall k :: l <= k < l + lim1 ==> Coord(data, v[k], f) < cutval)
    && (forall k :: l + lim1 <= k < l + lim2 ==> Coord(data, v[k], f) == cutval)
    && (forall k :: l + lim2 <= k < r ==> Coord(data, v[k], f) > cutval)
  }

  /** planeSplit: below the cut, then on it, then above it. */
  method Split(data: Dataset, ghost dim: nat, ind: array<nat>, off: nat, count: nat, cutfeat: nat, cutval: real)
    returns (lim1: nat, lim2: nat)
    requires Slice(data, dim, ind, off, count) && cutfeat < dim
    modifies ind
    ensures Slice(data, dim, ind, off, count)
    ensures Rearranged(old(ind[..]), ind[..], off, off + count)
    ensures ThreeWay(data, dim, ind[..], off, off + count, cutfeat, cutval, lim1, lim2)
    ensures forall k :: off <= k < off + lim1 ==> Coord(data, ind[k], cutfeat) < cutval
    ensures forall k :: off + lim1 <= k < off + lim2 ==> Coord(data, ind[k], cutfeat) == cutval
    ensures forall k :: off + lim2 <= k < off + count ==> Coord(data, ind[k], cutfeat) > cutval
  {
    lim1 := PartitionPass(data, dim, ind, off, count, cutfeat, cutval, false, 0);
    ghost var mid := ind[..];
    lim2 := PartitionPass(data, dim, ind, off, count, cutfeat, cutval, true, lim1);
    forall k | off + lim1 <= k < off + count
      ensures !Front(data, ind[k], cutfeat, cutval, false)
    {
      var j := RearrangedFrom(mid, ind[..], off + lim1, off + count, k);
      assert !Front(data, mid[j], cutfeat, cutval, false);
    }
  }

  // ---------- middleSplit_ ----------

  const EPS := 0.00001

  function Span(b: Interval): real {
    b.high - b.low
  }

  ghost function WidestSpan(box: seq<Interval>): real
    requires |box| > 0
  {
    if |box| == 1 then Span(box[0]) else MaxReal(WidestSpan(box[..|box| - 1]), Span(box[|box| - 1]))
  }

  /** An axis on which the box is, up to EPS, as wide as it gets. */
  ghost predicate Wide(box: seq<Interval>, f: nat)
    requires f < |box|
  {
    Span(box[f]) > (1.0 - EPS) * WidestSpan(box)
  }

  ghost function Spread(data: Dataset, dim: nat, v: seq<nat>, l: nat, r: nat, f: nat): real
    requires Range(data, dim, v, l, r) && f < dim
  {
    Highest(data, dim, v, l, r, f) - Lowest(data, dim, v, l, r, f)
  }

  /** Of the first n axes, f is the first wide one on which the points are spread the most,
      or axis 0 if none of them is wide. */
  ghost predicate BestAxis(data: Dataset, dim: nat, v: seq<nat>, l: nat, r: nat, box: seq<Interval>, n: nat, f: nat)
    requires Range(data, dim, v, l, r) && |box| == dim && n <= dim
  {
    if exists g :: 0 <= g < n && Wide(box, g) then
      && f < n && Wide(box, f)
      && (forall g :: 0 <= g < n && Wide(box, g) ==> Spread(data, dim, v, l, r, g) <= Spread(data, dim, v, l, r, f))
      && (forall g :: 0 <= g < f && Wide(box, g) ==> Spread(data, dim, v, l, r, g) < Spread(data, dim, v, l, r, f))
    else
      f == 0
  }

  /** Which axis that is, told without the helpers: with m the widest axis, nothing but a flat box
      leaves axis 0, and otherwise f is the first axis of greatest spread among those whose width is
      more than 0.99999 times the greatest one. */
  lemma BestAxisMeaning(data: Dataset, dim: nat, v: seq<nat>, l: nat, r: nat, box: seq<Interval>, f: nat, m: nat)
    requires Range(data, dim, v, l, r) && |box| == dim && m < dim && BestAxis(data, dim, v, l, r, box, dim, f)
    requires forall g :: 0 <= g < dim ==> box[g].high - box[g].low <= box[m].high - box[m].low
    ensures f < dim
    ensures box[m].high <= box[m].low ==> f == 0
    ensures box[m].high > box[m].low ==>
              && box[f].high - box[f].low > 0.99999 * (box[m].high - box[m].low)
              && forall g :: 0 <= g < dim && box[g].high - box[g].low > 0.99999 * (box[m].high - box[m].low) ==>
                   var (mine, its) := (Highest(data, dim, v, l, r, f) - Lowest(data, dim, v, l, r, f),
                                       Highest(data, dim, v, l, r, g) - Lowest(data, dim, v, l, r, g));
                   its <= mine && (g < f ==> its < mine)
  {
    hide Highest, Lowest;
    WidestIs(box, m);
    assert Wide(box, m) <==> box[m].high > box[m].low;
    forall g | 0 <= g < dim
      ensures Wide(box, g) <==> box[g].high - box[g].low > 0.99999 * (box[m].high - box[m].low)
    {
    }
    if box[m].high <= box[m].low {
      assert forall g :: 0 <= g < dim ==> !Wide(box, g);
    }
  }

  lemma {:induction false} WidestIs(box: seq<Interval>, m: nat)
    requires m < |box| && forall g :: 0 <= g < |box| ==> Span(box[g]) <= Span(box[m])
    ensures WidestSpan(box) == Span(box[m])
  {
    WidestBounds(box);
  }

  lemma {:induction false} WidestBounds(box: seq<Interval>)
    requires |box| > 0
    ensures forall g :: 0 <= g < |box| ==> Span(box[g]) <= WidestSpan(box)
    ensures exists g :: 0 <= g < |box| && Span(box[g]) == WidestSpan(box)
  {
    var n := |box| - 1;
    if n > 0 {
      WidestBounds(box[..n]);
      var g :| 0 <= g < n && Span(box[..n][g]) == WidestSpan(box[..n]);
      assert Span(box[g]) == WidestSpan(box) || Span(box[n]) == WidestSpan(box);
      forall g | 0 <= g < |box|
        ensures Span(box[g]) <= WidestSpan(box)
      {
        assert g < n ==> Span(box[..n][g]) <= WidestSpan(box[..n]);
      }
    } else {
      assert Span(box[0]) == WidestSpan(box);
    }
  }

  /** Cutting the range after j entries leaves two non-empty sides of the plane. */
  ghost predicate ValidCut(data: Dataset, dim: nat, v: seq<nat>, l: nat, r: nat, f: nat, cutval: real, j: nat)
    requires Range(data, dim, v, l, r) && f < dim
  {
    && 0 < j < r - l
    && (forall k :: l <= k < l + j ==> Coord(data, v[k], f) <= cutval)
    && (forall k :: l + j <= k < r ==> Coord(data, v[k], f) >= cutval)
  }

  method ComputeMinMax(data: Dataset, ghost dim: nat, ind: array<nat>, off: nat, count: nat, element: nat)
    returns (minElem: real, maxElem: real)
    requires Slice(data, dim, ind, off, count) && element < dim
    ensures minElem == Lowest(data, dim, ind[..], off, off + count, element)
    ensures maxElem == Highest(data, dim, ind[..], off, off + count, element)
  {
    minElem := Coord(data, ind[off], element);
    maxElem := Coord(data, ind[off], element);
    for i := 1 to count
      invariant minElem == Lowest(data, dim, ind[..], off, off + i, element)
      invariant maxElem == Highest(data, dim, ind[..], off, off + i, element)
    {
      var val := Coord(data, ind[off + i], element);
      if val < minElem { minElem := val; }
      if val > maxElem { maxElem := val; }
    }
  }

  method MaxSpan(box: array<Interval>) returns (maxSpan: real)
    requires box.Length > 0
    ensures maxSpan == WidestSpan(box[..])
  {
    maxSpan := Span(box[0]);
    assert box[..1] == [box[0]];
    for i := 1 to box.Length
      invariant maxSpan == WidestSpan(box[..i])
    {
      assert box[..i + 1][..i] == box[..i];
      if Span(box[i]) > maxSpan { maxSpan := Span(box[i]); }
    }
    assert box[..box.Length] == box[..];
  }

  lemma NextAxis(data: Dataset, dim: nat, v: seq<nat>, l: nat, r: nat, box: seq<Interval>, n: nat, f: nat)
    requires Range(data, dim, v, l, r) && |box| == dim && n < dim
    requires BestAxis(data, dim, v, l, r, box, n, f) && Wide(box, n)
    ensures if (exists g :: 0 <= g < n && Wide(box, g))
               && Spread(data, dim, v, l, r, n) <= Spread(data, dim, v, l, r, f)
            then BestAxis(data, dim, v, l, r, box, n + 1, f)
            else BestAxis(data, dim, v, l, r, box, n + 1, n)
  {
  }

  /** The two loops of middleSplit_ that pick the axis to cut. */
  method ChooseAxis(data: Dataset, dim: nat, ind: array<nat>, off: nat, count: nat, box: array<Interval>)
    returns (cutfeat: nat)
    requires Slice(data, dim, ind, off, count) && box.Length == dim
    ensures cutfeat < dim
    ensures BestAxis(data, dim, ind[..], off, off + count, box[..], dim, cutfeat)
  {
    hide Lowest, Highest;
    var maxSpan := MaxSpan(box);
    var maxSpread := -1.0;
    cutfeat := 0;
    for i := 0 to dim
      invariant cutfeat < dim
      invariant BestAxis(data, dim, ind[..], off, off + count, box[..], i, cutfeat)
      invariant maxSpread == if exists g :: 0 <= g < i && Wide(box[..], g)
                             then Spread(data, dim, ind[..], off, off + count, cutfeat) else -1.0
    {
      if Span(box[i]) > (1.0 - EPS) * maxSpan {
        var minElem, maxElem := ComputeMinMax(data, dim, ind, off, count, i);
        var spread := maxElem - minElem;
        Extremes(data, dim, ind[..], off, off + count, i);
        NextAxis(data, dim, ind[..], off, off + count, box[..], i, cutfeat);
        if spread > maxSpread {
          cutfeat := i;
          maxSpread := spread;
        }
      }
    }
  }

  /** The point of [low, high] that is nearest to the middle of the box. */
  ghost predicate NearestToMiddle(side: Interval, low: real, high: real, cutval: real) {
    var middle := (side.low + side.high) / 2.0;
    low <= cutval <= high && (cutval < middle ==> cutval == high) && (cutval > middle ==> cutval == low)
  }

  /** The cutting plane of middleSplit_: through the middle of the box, but moved into the
      range of the points. */
  ghost predicate CutPlane(data: Dataset, dim: nat, v: seq<nat>, l: nat, r: nat, box: seq<Interval>,
                           cutfeat: nat, cutval: real)
    requires Range(data, dim, v, l, r) && |box| == dim
  {
    && cutfeat < dim
    && BestAxis(data, dim, v, l, r, box, dim, cutfeat)
    && NearestToMiddle(box[cutfeat], Lowest(data, dim, v, l, r, cutfeat), Highest(data, dim, v, l, r, cutfeat), cutval)
  }

  method ChoosePlane(data: Dataset, dim: nat, ind: array<nat>, off: nat, count: nat, box: array<Interval>)
    returns (cutfeat: nat, cutval: real)
    requires Slice(data, dim, ind, off, count) && box.Length == dim
    ensures CutPlane(data, dim, ind[..], off, off + count, box[..], cutfeat, cutval)
    ensures var low, high := Lowest(data, dim, ind[..], off, off + count, cutfeat),
                             Highest(data, dim, ind[..], off, off + count, cutfeat);
            var middle := (box[cutfeat].low + box[cutfeat].high) / 2.0;
            low <= cutval <= high && (cutval < middle ==> cutval == high) && (cutval > middle ==> cutval == low)
  {
    cutfeat := ChooseAxis(data, dim, ind, off, count, box);
    var splitVal := (box[cutfeat].low + box[cutfeat].high) / 2.0;
    var minElem, maxElem := ComputeMinMax(data, dim, ind, off, count, cutfeat);
    Extremes(data, dim, ind[..], off, off + count, cutfeat);
    if splitVal < minElem {
      cutval := minElem;
    } else if splitVal > maxElem {
      cutval := maxElem;
    } else {
      cutval := splitVal;
    }
  }

  /** middleSplit_: partition by the chosen plane and cut as near to the middle of the range
      as the plane allows. No property of the box is needed for both sides to be non-empty. */
  method MiddleSplit(data: Dataset, dim: nat, ind: array<nat>, off: nat, count: nat, box: array<Interval>)
    returns (index: nat, cutfeat: nat, cutval: real)
    requires Slice(data, dim, ind, off, count) && count >= 2 && box.Length == dim
    modifies ind
    ensures Slice(data, dim, ind, off, count)
    ensures Rearranged(old(ind[..]), ind[..], off, off + count)
    ensures CutPlane(data, dim, old(ind[..]), off, off + count, box[..], cutfeat, cutval)
    ensures ValidCut(data, dim, ind[..], off, off + count, cutfeat, cutval, index)
    ensures var w, r, half := ind[..], off + count, count / 2;
            forall j: nat :: ValidCut(data, dim, w, off, r, cutfeat, cutval, j) ==>
              (index > half ==> j >= index) && (index < half ==> j <= index)
    ensures var low, high := Lowest(data, dim, old(ind[..]), off, off + count, cutfeat),
                             Highest(data, dim, old(ind[..]), off, off + count, cutfeat);
            var middle := (box[cutfeat].low + box[cutfeat].high) / 2.0;
            low <= cutval <= high && (cutval < middle ==> cutval == high) && (cutval > middle ==> cutval == low)
    ensures 0 < index < count && cutfeat < dim
    ensures forall k :: off <= k < off + index ==> Coord(data, ind[k], cutfeat) <= cutval
    ensures forall k :: off + index <= k < off + count ==> Coord(data, ind[k], cutfeat) >= cutval
  {
    ghost var v := ind[..];
    cutfeat, cutval := ChoosePlane(data, dim, ind, off, count, box);
    var lim1, lim2 := Split(data, dim, ind, off, count, cutfeat, cutval);
    LimitsInside(data, dim, v, ind[..], off, off + count, cutfeat, cutval, lim1, lim2);
    if lim1 > count / 2 {
      index := lim1;
    } else if lim2 < count / 2 {
      index := lim2;
    } else {
      index := count / 2;
    }
    NearestCut(data, dim, ind[..], off, off + count, cutfeat, cutval, lim1, lim2, index);
  }

  /** With the cut inside the range of the points, neither end of the middle part is extreme. */
  lemma LimitsInside(data: Dataset, dim: nat, v: seq<nat>, w: seq<nat>, l: nat, r: nat, f: nat, cutval: real,
                     lim1: nat, lim2: nat)
    requires Range(data, dim, v, l, r) && Range(data, dim, w, l, r) && f < dim && Rearranged(v, w, l, r)
    requires ThreeWay(data, dim, w, l, r, f, cutval, lim1, lim2)
    requires Lowest(data, dim, v, l, r, f) <= cutval <= Highest(data, dim, v, l, r, f)
    ensures lim1 < r - l && lim2 > 0
  {
    Extremes(data, dim, v, l, r, f);
    var k1 :| l <= k1 < r && Coord(data, v[k1], f) == Lowest(data, dim, v, l, r, f);
    var k2 :| l <= k2 < r && Coord(data, v[k2], f) == Highest(data, dim, v, l, r, f);
    RearrangedSymmetric(v, w, l, r);
    var j1 := RearrangedFrom(w, v, l, r, k1);
    var j2 := RearrangedFrom(w, v, l, r, k2);
  }

  lemma RearrangedSymmetric(v: seq<nat>, w: seq<nat>, l: nat, r: nat)
    requires Rearranged(v, w, l, r)
    ensures Rearranged(w, v, l, r)
  {
  }

  /** The valid cuts are exactly the positions from lim1 to lim2; the one chosen is the one
      nearest to the middle. */
  lemma NearestCut(data: Dataset, dim: nat, v: seq<nat>, l: nat, r: nat, f: nat, cutval: real,
                   lim1: nat, lim2: nat, index: nat)
    requires Range(data, dim, v, l, r) && f < dim && r - l >= 2
    requires ThreeWay(data, dim, v, l, r, f, cutval, lim1, lim2)
    requires lim1 < r - l && lim2 > 0
    requires index == if lim1 > (r - l) / 2 then lim1 else if lim2 < (r - l) / 2 then lim2 else (r - l) / 2
    ensures ValidCut(data, dim, v, l, r, f, cutval, index)
    ensures forall j: nat :: ValidCut(data, dim, v, l, r, f, cutval, j) ==>
              (index > (r - l) / 2 ==> j >= index) && (index < (r - l) / 2 ==> j <= index)
  {
    forall j: nat | ValidCut(data, dim, v, l, r, f, cutval, j)
      ensures lim1 <= j <= lim2
    {
      var before, after := Coord(data, v[l + j - 1], f), Coord(data, v[l + j], f);
      assert before <= cutval <= after;
    }
  }
}

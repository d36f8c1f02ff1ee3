/** Building the tree: divideTree, which rearranges vind and tightens the box it is given. */
module BuildTree {
  import opened PointSets
  import opened Trees
  import PlaneSplit

  /** The box of the first axes of [l, r) is tight. */
  ghost predicate BoxUpTo(data: Dataset, dim: nat, v: seq<nat>, l: nat, r: nat, box: seq<Interval>, axes: nat)
    requires Range(data, dim, v, l, r) && |box| == dim && axes <= dim
  {
    forall f :: 0 <= f < axes ==>
      box[f] == Interval(Lowest(data, dim, v, l, r, f), Highest(data, dim, v, l, r, f))
  }

  ghost predicate BoxFrom(data: Dataset, dim: nat, v: seq<nat>, l: nat, r: nat, box: seq<Interval>, axes: nat)
    requires Range(data, dim, v, l, r) && |box| == dim && axes <= dim
  {
    forall f :: axes <= f < dim ==>
      box[f] == Interval(Lowest(data, dim, v, l, r, f), Highest(data, dim, v, l, r, f))
  }

  /** The bounding-box loops of a leaf. */
  method LeafBox(data: Dataset, dim: nat, vind: array<nat>, left: nat, right: nat, bbox: array<Interval>)
    requires Range(data, dim, vind[..], left, right) && bbox.Length == dim
    modifies bbox
    ensures bbox[..] == TightBox(data, dim, vind[..], left, right)
  {
    ghost var v := vind[..];
    for i := 0 to dim
      invariant vind[..] == v && BoxUpTo(data, dim, v, left, left + 1, bbox[..], i)
    {
      bbox[i] := Interval(Coord(data, vind[left], i), Coord(data, vind[left], i));
    }
    for k := left + 1 to right
      invariant vind[..] == v && BoxUpTo(data, dim, v, left, k, bbox[..], dim)
    {
      for i := 0 to dim
        invariant vind[..] == v
        invariant BoxUpTo(data, dim, v, left, k + 1, bbox[..], i)
        invariant BoxFrom(data, dim, v, left, k, bbox[..], i)
      {
        var c := Coord(data, vind[k], i);
        if bbox[i].low > c { bbox[i] := bbox[i].(low := c); }
        if bbox[i].high < c { bbox[i] := bbox[i].(high := c); }
      }
    }
  }

  /** computeBoundingBox over the whole dataset, in dataset order. */
  method ComputeBoundingBox(data: Dataset, dim: nat, ghost v: seq<nat>, bbox: array<Interval>)
    requires Shaped(data, dim) && |data| > 0 && bbox.Length == dim
    requires |v| == |data| && forall k :: 0 <= k < |v| ==> v[k] == k
    modifies bbox
    ensures bbox[..] == TightBox(data, dim, v, 0, |data|)
  {
    for i := 0 to dim
      invariant BoxUpTo(data, dim, v, 0, 1, bbox[..], i)
    {
      bbox[i] := Interval(Coord(data, 0, i), Coord(data, 0, i));
    }
    for k := 1 to |data|
      invariant BoxUpTo(data, dim, v, 0, k, bbox[..], dim)
    {
      for i := 0 to dim
        invariant BoxUpTo(data, dim, v, 0, k + 1, bbox[..], i)
        invariant BoxFrom(data, dim, v, 0, k, bbox[..], i)
      {
        var c := Coord(data, k, i);
        if c < bbox[i].low { bbox[i] := bbox[i].(low := c); }
        if c > bbox[i].high { bbox[i] := bbox[i].(high := c); }
      }
    }
  }

  /** The box of an inner node, from the boxes of its children. */
  method JoinBoxes(data: Dataset, dim: nat, ghost v: seq<nat>, ghost l: nat, ghost m: nat, ghost r: nat,
                   leftBox: array<Interval>, rightBox: array<Interval>, bbox: array<Interval>)
    requires Range(data, dim, v, l, m) && Range(data, dim, v, m, r)
    requires bbox.Length == dim && bbox != leftBox && bbox != rightBox
    requires leftBox[..] == TightBox(data, dim, v, l, m) && rightBox[..] == TightBox(data, dim, v, m, r)
    modifies bbox
    ensures bbox[..] == TightBox(data, dim, v, l, r)
  {
    for i := 0 to dim
      invariant leftBox[..] == TightBox(data, dim, v, l, m) && rightBox[..] == TightBox(data, dim, v, m, r)
      invariant BoxUpTo(data, dim, v, l, r, bbox[..], i)
    {
      ExtremesJoin(data, dim, v, l, m, r, i);
      assert leftBox[..][i] == leftBox[i] && rightBox[..][i] == rightBox[i];
      bbox[i] := Interval(MinReal(leftBox[i].low, rightBox[i].low), MaxReal(leftBox[i].high, rightBox[i].high));
    }
  }

  /** The sides of a valid cut are still separated after each of them was rearranged. */
  lemma SidesStaySeparated(data: Dataset, dim: nat, v0: seq<nat>, v1: seq<nat>, v2: seq<nat>,
                           l: nat, m: nat, r: nat, f: nat, cutval: real)
    requires Range(data, dim, v0, l, r) && Indexes(data, v1) && Indexes(data, v2) && f < dim && l < m < r
    requires PlaneSplit.ValidCut(data, dim, v0, l, r, f, cutval, m - l)
    requires Rearranged(v0, v1, l, m) && Rearranged(v1, v2, m, r)
    ensures Highest(data, dim, v2, l, m, f) <= cutval <= Lowest(data, dim, v2, m, r, f)
  {
    Extremes(data, dim, v2, l, m, f);
    var k1 :| l <= k1 < m && Coord(data, v2[k1], f) == Highest(data, dim, v2, l, m, f);
    var j1 := RearrangedFrom(v0, v1, l, m, k1);
    Extremes(data, dim, v2, m, r, f);
    var k2 :| m <= k2 < r && Coord(data, v2[k2], f) == Lowest(data, dim, v2, m, r, f);
    var j2 := RearrangedFrom(v1, v2, m, r, k2);
  }

  lemma RearrangedInSteps(v: seq<nat>, v0: seq<nat>, v1: seq<nat>, v2: seq<nat>, l: nat, m: nat, r: nat)
    requires l <= m <= r && Rearranged(v, v0, l, r) && Rearranged(v0, v1, l, m) && Rearranged(v1, v2, m, r)
    ensures Rearranged(v, v2, l, r)
  {
  }

  /** Two finished children and exact split bounds make a finished node. */
  lemma InnerNode(data: Dataset, dim: nat, v1: seq<nat>, v2: seq<nat>, leafMax: nat, l: nat, m: nat, r: nat,
                  f: nat, child1: Node, child2: Node)
    requires Shaped(data, dim) && Indexes(data, v1) && Indexes(data, v2) && f < dim
    requires WellFormed(data, dim, v1, leafMax, child1) && Lo(child1) == l && Hi(child1) == m
    requires WellFormed(data, dim, v2, leafMax, child2) && Lo(child2) == m && Hi(child2) == r
    requires Rearranged(v1, v2, m, r)
    requires Highest(data, dim, v2, l, m, f) <= Lowest(data, dim, v2, m, r, f)
    ensures TightBox(data, dim, v1, l, m) == TightBox(data, dim, v2, l, m)
    ensures WellFormed(data, dim, v2, leafMax,
              Node.Node(Sub(f, Highest(data, dim, v2, l, m, f), Lowest(data, dim, v2, m, r, f)), child1, child2))
  {
    WellFormedFrame(data, dim, v1, v2, leafMax, child1);
    assert v1[l..m] == v2[l..m];
    forall g | 0 <= g < dim
      ensures TightBox(data, dim, v1, l, m)[g] == TightBox(data, dim, v2, l, m)[g]
    {
      ExtremesFrame(data, dim, v1, v2, l, m, g);
    }
  }

  method CopyBox(box: array<Interval>) returns (copy: array<Interval>)
    ensures fresh(copy) && copy[..] == box[..]
  {
    copy := new Interval[box.Length](i requires 0 <= i < box.Length reads box => box[i]);
  }

  /** divideTree: permutes vind only inside [left, right), leaves the exact box of the range in
      bbox, and returns a well-formed tree over the range. */
  method DivideTree(data: Dataset, dim: nat, leafMax: nat, vind: array<nat>, left: nat, right: nat,
                    bbox: array<Interval>)
    returns (node: Node)
    requires Range(data, dim, vind[..], left, right) && bbox.Length == dim && leafMax >= 1
    modifies vind, bbox
    ensures Indexes(data, vind[..]) && Rearranged(old(vind[..]), vind[..], left, right)
    ensures WellFormed(data, dim, vind[..], leafMax, node) && Lo(node) == left && Hi(node) == right
    ensures bbox[..] == TightBox(data, dim, vind[..], left, right)
    decreases right - left
  {
    if right - left <= leafMax {
      LeafBox(data, dim, vind, left, right, bbox);
      return Node.Node(Lr(left, right), Null, Null);
    }
    hide Rearranged, Shaped, Indexes, WellFormed, Lowest, Highest;
    var idx, cutfeat, cutval := PlaneSplit.MiddleSplit(data, dim, vind, left, right - left, bbox);
    ghost var v0 := vind[..];
    var mid := left + idx;

    var leftBox := CopyBox(bbox);
    leftBox[cutfeat] := leftBox[cutfeat].(high := cutval);
    var child1 := DivideTree(data, dim, leafMax, vind, left, mid, leftBox);
    ghost var v1 := vind[..];

    var rightBox := CopyBox(bbox);
    rightBox[cutfeat] := rightBox[cutfeat].(low := cutval);
    var child2 := DivideTree(data, dim, leafMax, vind, mid, right, rightBox);
    ghost var v2 := vind[..];

    RearrangedInSteps(old(vind[..]), v0, v1, v2, left, mid, right);
    SidesStaySeparated(data, dim, v0, v1, v2, left, mid, right, cutfeat, cutval);
    InnerNode(data, dim, v1, v2, leafMax, left, mid, right, cutfeat, child1, child2);
    assert leftBox[cutfeat] == leftBox[..][cutfeat] && rightBox[cutfeat] == rightBox[..][cutfeat];
    node := Node.Node(Sub(cutfeat, leftBox[cutfeat].high, rightBox[cutfeat].low), child1, child2);
    JoinBoxes(data, dim, v2, left, mid, right, leftBox, rightBox, bbox);
  }
}

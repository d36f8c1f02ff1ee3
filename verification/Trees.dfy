/** The nodes of the kd-tree and what a finished tree says about the index array. */
module Trees {
  import opened PointSets

  /** The union node_type. */
  datatype Payload =
    | Lr(left: nat, right: nat)
    | Sub(divfeat: nat, divlow: real, divhigh: real)

  /** A node pointer: null, or a node with its payload and its two child pointers. */
  datatype Node = Null | Node(payload: Payload, child1: Node, child2: Node)

  predicate IsLeaf(n: Node) {
    n.Node? && n.child1.Null? && n.child2.Null?
  }

  /** The shape every built tree has: leaves hold a range, inner nodes two children. */
  predicate Proper(n: Node) {
    n.Node? && if IsLeaf(n) then n.payload.Lr? else n.payload.Sub? && Proper(n.child1) && Proper(n.child2)
  }

  /** First position below the node, and the position after its last one. */
  function Lo(n: Node): nat
    requires Proper(n)
  {
    if IsLeaf(n) then n.payload.left else Lo(n.child1)
  }

  function Hi(n: Node): nat
    requires Proper(n)
  {
    if IsLeaf(n) then n.payload.right else Hi(n.child2)
  }

  /** The build invariant: leaves are small and non-empty, the ranges of two children adjoin,
      and the split bounds are exactly the extreme coordinates on either side. */
  ghost predicate WellFormed(data: Dataset, dim: nat, v: seq<nat>, leafMax: nat, n: Node)
    requires Shaped(data, dim) && Indexes(data, v)
    ensures WellFormed(data, dim, v, leafMax, n) ==> Proper(n) && Lo(n) < Hi(n) <= |v|
  {
    Proper(n) &&
    if IsLeaf(n) then
      0 < n.payload.right - n.payload.left <= leafMax && n.payload.right <= |v|
    else
      var f := n.payload.divfeat;
      && f < dim
      && WellFormed(data, dim, v, leafMax, n.child1)
      && WellFormed(data, dim, v, leafMax, n.child2)
      && Hi(n.child1) == Lo(n.child2)
      && n.payload.divlow == Highest(data, dim, v, Lo(n.child1), Hi(n.child1), f)
      && n.payload.divhigh == Lowest(data, dim, v, Lo(n.child2), Hi(n.child2), f)
      && n.payload.divlow <= n.payload.divhigh
  }

  /** Whether a tree is well-formed depends only on the entries in its range. */
  lemma {:induction false} WellFormedFrame(data: Dataset, dim: nat, v: seq<nat>, w: seq<nat>, leafMax: nat, n: Node)
    requires Shaped(data, dim) && Indexes(data, v) && Indexes(data, w) && |v| == |w|
    requires WellFormed(data, dim, v, leafMax, n)
    requires forall k :: Lo(n) <= k < Hi(n) ==> v[k] == w[k]
    ensures WellFormed(data, dim, w, leafMax, n)
  {
    hide Lowest, Highest;
    if !IsLeaf(n) {
      var f := n.payload.divfeat;
      WellFormedFrame(data, dim, v, w, leafMax, n.child1);
      WellFormedFrame(data, dim, v, w, leafMax, n.child2);
      assert v[Lo(n.child1)..Hi(n.child1)] == w[Lo(n.child1)..Hi(n.child1)];
      assert v[Lo(n.child2)..Hi(n.child2)] == w[Lo(n.child2)..Hi(n.child2)];
      ExtremesFrame(data, dim, v, w, Lo(n.child1), Hi(n.child1), f);
      ExtremesFrame(data, dim, v, w, Lo(n.child2), Hi(n.child2), f);
    }
  }

  /** What the split bounds promise about single points. */
  lemma SplitBounds(data: Dataset, dim: nat, v: seq<nat>, leafMax: nat, n: Node)
    requires Shaped(data, dim) && Indexes(data, v) && WellFormed(data, dim, v, leafMax, n) && !IsLeaf(n)
    ensures forall k :: Lo(n.child1) <= k < Hi(n.child1) ==> Coord(data, v[k], n.payload.divfeat) <= n.payload.divlow
    ensures forall k :: Lo(n.child2) <= k < Hi(n.child2) ==> n.payload.divhigh <= Coord(data, v[k], n.payload.divfeat)
    ensures exists k :: Lo(n.child1) <= k < Hi(n.child1) && Coord(data, v[k], n.payload.divfeat) == n.payload.divlow
    ensures exists k :: Lo(n.child2) <= k < Hi(n.child2) && Coord(data, v[k], n.payload.divfeat) == n.payload.divhigh
  {
    Extremes(data, dim, v, Lo(n.child1), Hi(n.child1), n.payload.divfeat);
    Extremes(data, dim, v, Lo(n.child2), Hi(n.child2), n.payload.divfeat);
  }

  function NodeCount(n: Node): nat {
    if n.Null? then 0 else 1 + NodeCount(n.child1) + NodeCount(n.child2)
  }

  /** A build over n points allocates at most 2n - 1 nodes. */
  lemma {:induction false} NodeBudget(data: Dataset, dim: nat, v: seq<nat>, leafMax: nat, n: Node)
    requires Shaped(data, dim) && Indexes(data, v) && WellFormed(data, dim, v, leafMax, n)
    ensures NodeCount(n) <= 2 * (Hi(n) - Lo(n)) - 1
  {
    if !IsLeaf(n) {
      NodeBudget(data, dim, v, leafMax, n.child1);
      NodeBudget(data, dim, v, leafMax, n.child2);
    }
  }

  /** The ranges of the leaves, left to right. */
  function Leaves(n: Node): seq<(nat, nat)>
    requires Proper(n)
  {
    if IsLeaf(n) then [(n.payload.left, n.payload.right)] else Leaves(n.child1) + Leaves(n.child2)
  }

  /** The ranges cut [lo, hi) into consecutive pieces of 1 to leafMax positions. */
  ghost predicate Tiles(ranges: seq<(nat, nat)>, lo: nat, hi: nat, leafMax: nat) {
    && |ranges| > 0 && ranges[0].0 == lo && ranges[|ranges| - 1].1 == hi
    && (forall i :: 0 <= i < |ranges| ==> 0 < ranges[i].1 - ranges[i].0 <= leafMax)
    && (forall i :: 0 < i < |ranges| ==> ranges[i].0 == ranges[i - 1].1)
  }

  lemma {:induction false} LeavesTile(data: Dataset, dim: nat, v: seq<nat>, leafMax: nat, n: Node)
    requires Shaped(data, dim) && Indexes(data, v) && WellFormed(data, dim, v, leafMax, n)
    ensures Tiles(Leaves(n), Lo(n), Hi(n), leafMax)
  {
    if !IsLeaf(n) {
      LeavesTile(data, dim, v, leafMax, n.child1);
      LeavesTile(data, dim, v, leafMax, n.child2);
    }
  }

  /** An inner node for every leaf but one. */
  lemma {:induction false} NodesAndLeaves(n: Node)
    requires Proper(n)
    ensures |Leaves(n)| > 0 && NodeCount(n) == 2 * |Leaves(n)| - 1
  {
    if !IsLeaf(n) {
      NodesAndLeaves(n.child1);
      NodesAndLeaves(n.child2);
    }
  }

  lemma {:induction false} TilesAscend(ranges: seq<(nat, nat)>, lo: nat, hi: nat, leafMax: nat, i: nat, j: nat)
    requires Tiles(ranges, lo, hi, leafMax) && i < j < |ranges|
    ensures lo <= ranges[i].0 < ranges[i].1 <= ranges[j].0 < ranges[j].1 <= hi
    decreases j - i
  {
    if i + 1 < j {
      TilesAscend(ranges, lo, hi, leafMax, i, j - 1);
      TilesAscend(ranges, lo, hi, leafMax, j - 1, j);
    } else {
      TilesInside(ranges, lo, hi, leafMax, i);
      TilesInside(ranges, lo, hi, leafMax, j);
    }
  }

  lemma {:induction false} TilesInside(ranges: seq<(nat, nat)>, lo: nat, hi: nat, leafMax: nat, i: nat)
    requires Tiles(ranges, lo, hi, leafMax) && i < |ranges|
    ensures lo <= ranges[i].0 < ranges[i].1 <= hi
  {
    TilesFrom(ranges, lo, hi, leafMax, i);
    TilesTo(ranges, lo, hi, leafMax, i);
  }

  lemma {:induction false} TilesFrom(ranges: seq<(nat, nat)>, lo: nat, hi: nat, leafMax: nat, i: nat)
    requires Tiles(ranges, lo, hi, leafMax) && i < |ranges|
    ensures lo <= ranges[i].0
  {
    if i > 0 {
      TilesFrom(ranges, lo, hi, leafMax, i - 1);
    }
  }

  lemma {:induction false} TilesTo(ranges: seq<(nat, nat)>, lo: nat, hi: nat, leafMax: nat, i: nat)
    requires Tiles(ranges, lo, hi, leafMax) && i < |ranges|
    ensures ranges[i].1 <= hi
    decreases |ranges| - i
  {
    if i + 1 < |ranges| {
      TilesTo(ranges, lo, hi, leafMax, i + 1);
    }
  }

  /** Every position lies in exactly one of the ranges, which holds at most leafMax of them. */
  lemma {:induction false} TilesCover(ranges: seq<(nat, nat)>, lo: nat, hi: nat, leafMax: nat, k: nat) returns (i: nat)
    requires Tiles(ranges, lo, hi, leafMax) && lo <= k < hi
    ensures i < |ranges| && ranges[i].0 <= k < ranges[i].1 <= ranges[i].0 + leafMax
    ensures forall j :: 0 <= j < |ranges| && j != i ==> !(ranges[j].0 <= k < ranges[j].1)
  {
    i := 0;
    while ranges[i].1 <= k
      invariant i < |ranges| && ranges[i].0 <= k
      decreases |ranges| - i
    {
      i := i + 1;
    }
    forall j | 0 <= j < |ranges| && j != i
      ensures !(ranges[j].0 <= k < ranges[j].1)
    {
      if j < i {
        TilesAscend(ranges, lo, hi, leafMax, j, i);
      } else {
        TilesAscend(ranges, lo, hi, leafMax, i, j);
      }
    }
  }
}

/** Walking the tree: the incremental lower bound, pruning, and what a search may skip. */
module SearchTree {
  import opened Metrics
  import opened PointSets
  import opened Trees
  import opened Entries
  import opened ResultSets
  import opened Accuracies

  /** One query against one indexed dataset. */
  datatype Scene = Scene(data: Dataset, dim: nat, v: seq<nat>, term: Axis, q: Point) {
    ghost predicate Valid() {
      Shaped(data, dim) && Indexes(data, v) && Sound(term) && |q| == dim
    }

    /** The distance of the point at position k of the index array. */
    ghost function D(k: nat): real
      requires Valid() && k < |v|
    {
      Dist(term, q, data[v[k]])
    }

    ghost function EntryAt(k: nat): Entry
      requires Valid() && k < |v|
    {
      Entry(D(k), v[k])
    }
  }

  // ---------- The lower bound ----------

  ghost function Sum(d: seq<real>): real {
    if |d| == 0 then 0.0 else Sum(d[..|d| - 1]) + d[|d| - 1]
  }

  lemma {:induction false} SumUpdate(d: seq<real>, i: nat, x: real)
    requires i < |d|
    ensures Sum(d[i := x]) == Sum(d) - d[i] + x
  {
    var e := d[i := x];
    if i == |d| - 1 {
      assert e[..|d| - 1] == d[..|d| - 1];
    } else {
      assert e[..|d| - 1] == d[..|d| - 1][i := x];
      SumUpdate(d[..|d| - 1], i, x);
    }
  }

  ghost predicate AxisBound(s: Scene, d: seq<real>, k: nat)
    requires s.Valid() && |d| == s.dim && k < |s.v|
  {
    forall i :: 0 <= i < s.dim ==> d[i] <= AxisCost(s, i, k)
  }

  /** The contribution of one axis to the distance of the point at position k. */
  ghost function AxisCost(s: Scene, i: nat, k: nat): real
    requires s.Valid() && i < s.dim && k < |s.v|
  {
    s.term(s.q[i], Coord(s.data, s.v[k], i))
  }

  /** dists bounds, axis by axis, every point at the positions [lo, hi). */
  ghost predicate LowerBound(s: Scene, d: seq<real>, lo: nat, hi: nat)
    requires s.Valid()
  {
    |d| == s.dim && lo <= hi <= |s.v| && forall k :: lo <= k < hi ==> AxisBound(s, d, k)
  }

  lemma {:induction false} SumBelowPartial(s: Scene, d: seq<real>, k: nat, n: nat)
    requires s.Valid() && |d| == s.dim && k < |s.v| && AxisBound(s, d, k) && n <= s.dim
    ensures Sum(d[..n]) <= Partial(s.term, s.q, s.data[s.v[k]], n)
  {
    if n > 0 {
      SumBelowPartial(s, d, k, n - 1);
      assert d[..n][..n - 1] == d[..n - 1];
      assert d[n - 1] <= AxisCost(s, n - 1, k);
    }
  }

  /** The incremental bound never exceeds the distance of any point below the node. */
  lemma BoundBelowDistance(s: Scene, d: seq<real>, lo: nat, hi: nat)
    requires s.Valid() && LowerBound(s, d, lo, hi)
    ensures forall k :: lo <= k < hi ==> Sum(d) <= s.D(k)
  {
    forall k | lo <= k < hi
      ensures Sum(d) <= s.D(k)
    {
      SumBelowPartial(s, d, k, s.dim);
      assert d[..s.dim] == d;
    }
  }

  /** Replacing one axis contribution by the distance to a plane that separates the query from
      all points of the range keeps a lower bound. */
  lemma CutUpdate(s: Scene, d: seq<real>, lo: nat, hi: nat, f: nat, plane: real)
    requires s.Valid() && LowerBound(s, d, lo, hi) && f < s.dim
    requires (forall k :: lo <= k < hi ==> s.q[f] <= plane <= Coord(s.data, s.v[k], f))
             || (forall k :: lo <= k < hi ==> Coord(s.data, s.v[k], f) <= plane <= s.q[f])
    ensures LowerBound(s, d[f := s.term(s.q[f], plane)], lo, hi)
  {
    var e := d[f := s.term(s.q[f], plane)];
    forall k | lo <= k < hi
      ensures AxisBound(s, e, k)
    {
      assert AxisBound(s, d, k);
      TermBounds(s.term, s.q[f], plane, Coord(s.data, s.v[k], f));
    }
  }

  // ---------- What one visit does to a result set ----------

  ghost predicate Distinct(picks: seq<nat>) {
    forall i, j :: 0 <= i < j < |picks| ==> picks[i] != picks[j]
  }

  ghost predicate Inside(picks: seq<nat>, lo: nat, hi: nat) {
    forall i :: 0 <= i < |picks| ==> lo <= picks[i] < hi
  }

  ghost function EntriesOf(s: Scene, picks: seq<nat>): (e: seq<Entry>)
    requires s.Valid() && Inside(picks, 0, |s.v|)
    ensures |e| == |picks|
    ensures forall i :: 0 <= i < |picks| ==> e[i] == s.EntryAt(picks[i])
  {
    seq(|picks|, i requires 0 <= i < |picks| && s.Valid() && Inside(picks, 0, |s.v|) => s.EntryAt(picks[i]))
  }

  /** A visit of the positions [lo, hi) offered exactly the picked ones, each once, and every
      position it did not pick is too far: even its scaled distance reaches the bound. */
  ghost predicate Visited(s: Scene, p: Policy, acc: Accuracy, lo: nat, hi: nat,
                          before: seq<Entry>, after: seq<Entry>, picks: seq<nat>)
    requires s.Valid() && p.Usable() && hi <= |s.v|
    ensures Visited(s, p, acc, lo, hi, before, after, picks) ==> AllBelow(after, p.Ceiling())
  {
    && Distinct(picks) && Inside(picks, lo, hi)
    && after == before + EntriesOf(s, picks)
    && AllBelow(after, p.Ceiling())
    && p.WorstAfter(after) <= p.WorstAfter(before)
    && forall k :: lo <= k < hi && k !in picks ==> acc.up(s.D(k)) >= p.WorstAfter(after)
  }

  lemma DistanceNonNegative(s: Scene, k: nat)
    requires s.Valid() && k < |s.v|
    ensures s.D(k) >= 0.0
  {
    PartialMonotone(s.term, s.q, s.data[s.v[k]], 0, s.dim);
  }

  lemma EntriesAppend(s: Scene, a: seq<Entry>, p1: seq<nat>, p2: seq<nat>)
    requires s.Valid() && Inside(p1, 0, |s.v|) && Inside(p2, 0, |s.v|)
    ensures (a + EntriesOf(s, p1)) + EntriesOf(s, p2) == a + EntriesOf(s, p1 + p2)
  {
  }

  lemma VisitTwo(s: Scene, p: Policy, acc: Accuracy, lo1: nat, hi1: nat, lo2: nat, hi2: nat, lo: nat, hi: nat,
                 a: seq<Entry>, b: seq<Entry>, c: seq<Entry>, p1: seq<nat>, p2: seq<nat>)
    requires s.Valid() && p.Usable() && hi <= |s.v|
    requires (lo == lo1 <= hi1 == lo2 <= hi2 == hi) || (lo == lo2 <= hi2 == lo1 <= hi1 == hi)
    requires Visited(s, p, acc, lo1, hi1, a, b, p1)
    requires Visited(s, p, acc, lo2, hi2, b, c, p2)
    ensures Visited(s, p, acc, lo, hi, a, c, p1 + p2)
  {
    var both := p1 + p2;
    EntriesAppend(s, a, p1, p2);
    assert c == a + EntriesOf(s, both);
    forall k | lo <= k < hi && k !in both
      ensures acc.up(s.D(k)) >= p.WorstAfter(c)
    {
      assert k !in p1 && k !in p2;
      if lo1 <= k < hi1 {
        assert acc.up(s.D(k)) >= p.WorstAfter(b);
      }
    }
  }

  /** Not descending into a child whose bound is already too large. */
  lemma VisitPruned(s: Scene, p: Policy, epsError: real, d: seq<real>, mindist: real, lo: nat, hi: nat, a: seq<Entry>)
    requires s.Valid() && p.Usable() && epsError >= 1.0 && LowerBound(s, d, lo, hi)
    requires AllBelow(a, p.Ceiling())
    requires mindist == Sum(d) && !InReach(mindist, epsError, p.WorstAfter(a))
    ensures Visited(s, p, Times(epsError), lo, hi, a, a, [])
  {
    BoundBelowDistance(s, d, lo, hi);
    forall k | lo <= k < hi
      ensures Times(epsError).up(s.D(k)) >= p.WorstAfter(a)
    {
      Prunes(epsError, mindist, s.D(k), p.WorstAfter(a));
    }
  }

  lemma VisitPick(s: Scene, p: Policy, acc: Accuracy, lo: nat, k: nat, a: seq<Entry>, b: seq<Entry>, picks: seq<nat>)
    requires s.Valid() && p.Usable() && k < |s.v|
    requires Visited(s, p, acc, lo, k, a, b, picks) && lo <= k
    requires s.D(k) < p.Ceiling()
    ensures Visited(s, p, acc, lo, k + 1, a, b + [s.EntryAt(k)], picks + [k])
  {
    hide Sound, StableSort;
    BoundFalls(p, b, s.EntryAt(k));
    assert EntriesOf(s, picks + [k]) == EntriesOf(s, picks) + [s.EntryAt(k)];
    var c := b + [s.EntryAt(k)];
    forall j | lo <= j < k + 1 && j !in picks + [k]
      ensures acc.up(s.D(j)) >= p.WorstAfter(c)
    {
      assert j !in picks && j != k;
      assert acc.up(s.D(j)) >= p.WorstAfter(b);
    }
  }

  lemma VisitSkip(s: Scene, p: Policy, acc: Accuracy, lo: nat, k: nat, a: seq<Entry>, b: seq<Entry>, picks: seq<nat>)
    requires s.Valid() && p.Usable() && k < |s.v| && acc.Lawful()
    requires Visited(s, p, acc, lo, k, a, b, picks) && lo <= k
    requires s.D(k) >= p.WorstAfter(a)
    ensures Visited(s, p, acc, lo, k + 1, a, b, picks)
  {
    DistanceNonNegative(s, k);
    AtLeast(acc, s.D(k), p.WorstAfter(b));
  }

  // ---------- The search as a function ----------

  /** The points of a leaf that are nearer than the bound read in front of the loop. */
  ghost function WalkLeaf(s: Scene, worst: real, lo: nat, hi: nat, offered: seq<Entry>): seq<Entry>
    requires s.Valid() && lo <= hi <= |s.v|
    decreases hi
  {
    if lo == hi then offered
    else
      var before := WalkLeaf(s, worst, lo, hi - 1, offered);
      if s.D(hi - 1) < worst then before + [s.EntryAt(hi - 1)] else before
  }

  /** Every point of a leaf, in the order of the loop. */
  ghost function LeafEntries(s: Scene, lo: nat, hi: nat): (e: seq<Entry>)
    requires s.Valid() && lo <= hi <= |s.v|
    ensures |e| == hi - lo && forall i :: 0 <= i < |e| ==> e[i] == s.EntryAt(lo + i)
  {
    seq(hi - lo, i requires 0 <= i < hi - lo && s.Valid() && hi <= |s.v| => s.EntryAt(lo + i))
  }

  lemma {:induction false} WalkLeafOffers(s: Scene, worst: real, lo: nat, hi: nat, offered: seq<Entry>)
    requires s.Valid() && lo <= hi <= |s.v|
    ensures WalkLeaf(s, worst, lo, hi, offered) == offered + Within(LeafEntries(s, lo, hi), worst)
    decreases hi
  {
    if lo == hi {
      assert Within(LeafEntries(s, lo, hi), worst) == [];
    } else {
      hide Within, WalkLeaf, LeafEntries;
      WalkLeafOffers(s, worst, lo, hi - 1, offered);
      NextOffer(s, worst, lo, hi - 1, offered);
    }
  }

  lemma NextOffer(s: Scene, worst: real, lo: nat, i: nat, offered: seq<Entry>)
    requires s.Valid() && lo <= i < |s.v|
    requires WalkLeaf(s, worst, lo, i, offered) == offered + Within(LeafEntries(s, lo, i), worst)
    ensures WalkLeaf(s, worst, lo, i + 1, offered) == offered + Within(LeafEntries(s, lo, i + 1), worst)
  {
    hide Within, WalkLeaf, LeafEntries, Sound, Shaped, Indexes;
    WalkLeafNext(s, worst, lo, i, offered);
    LeafGrows(s, lo, i);
    OneMoreWithin(offered, LeafEntries(s, lo, i), s.EntryAt(i), worst);
  }

  lemma LeafGrows(s: Scene, lo: nat, hi: nat)
    requires s.Valid() && lo <= hi < |s.v|
    ensures LeafEntries(s, lo, hi + 1) == LeafEntries(s, lo, hi) + [s.EntryAt(hi)]
  {
  }

  /** When the bound that a leaf compares with may be read once, in front of the loop. */
  ghost predicate BoundMayBeStale(s: Scene, p: Policy, lo: nat, hi: nat, offered: seq<Entry>)
    requires s.Valid() && lo <= hi <= |s.v|
  {
    match p
    case NearestK(k, sentinel) =>
      var below := CountBelow(LeafEntries(s, lo, hi), sentinel);
      below == hi - lo || |offered| + below >= k
    case WithinRadius(_) => true
  }

  /** The leaf loop drops only points that the result set would have dropped, so that the set
      ends up as if it had been offered the whole leaf, exactly if all distances in the leaf lie
      below the sentinel or enough distances do to fill the set. */
  lemma StaleLeafBound(s: Scene, p: Policy, lo: nat, hi: nat, offered: seq<Entry>)
    requires s.Valid() && p.Usable() && lo <= hi <= |s.v| && AllBelow(offered, p.Ceiling())
    ensures p.Holds(WalkLeaf(s, p.WorstAfter(offered), lo, hi, offered)) == p.Holds(offered + LeafEntries(s, lo, hi))
       <==> BoundMayBeStale(s, p, lo, hi, offered)
  {
    var leaf := LeafEntries(s, lo, hi);
    WalkLeafOffers(s, p.WorstAfter(offered), lo, hi, offered);
    match p
    case NearestK(k, sentinel) => StaleBound(offered, leaf, k, sentinel);
    case WithinRadius(radius) => StaleRadius(offered, leaf, radius);
  }

  /** It does drop a point that insertion would keep when that point is the only one and its
      distance has reached the sentinel. */
  lemma StaleLeafBoundFails(s: Scene, sentinel: real)
    requires s.Valid() && |s.v| == 1 && s.D(0) >= sentinel
    ensures Nearest(WalkLeaf(s, WorstOf([], 1, sentinel), 0, 1, []), 1) == []
    ensures Nearest([s.EntryAt(0)], 1) == [s.EntryAt(0)]
  {
    assert WalkLeaf(s, sentinel, 0, 0, []) == [];
    SortStep([], s.EntryAt(0));
    assert [] + [s.EntryAt(0)] == [s.EntryAt(0)];
  }

  /** Whether the query is nearer to the low side of a split. */
  function LowSide(val: real, payload: Payload): bool
    requires payload.Sub?
  {
    (val - payload.divlow) + (val - payload.divhigh) < 0.0
  }

  /** Everything a search offers, with the bounds passed by value and summed up afresh at every
      node: the nearer child first, the other one unless even its bound is out of reach. */
  ghost function Walk(s: Scene, p: Policy, epsError: real, leafMax: nat, n: Node, d: seq<real>,
                      offered: seq<Entry>): seq<Entry>
    requires s.Valid() && p.Usable() && |d| == s.dim && WellFormed(s.data, s.dim, s.v, leafMax, n)
    decreases n, 0
  {
    if IsLeaf(n) then WalkLeaf(s, p.WorstAfter(offered), n.payload.left, n.payload.right, offered)
    else
      var f := n.payload.divfeat;
      var low := LowSide(s.q[f], n.payload);
      var middle := Walk(s, p, epsError, leafMax, if low then n.child1 else n.child2, d, offered);
      var plane := if low then n.payload.divhigh else n.payload.divlow;
      WalkOther(s, p, epsError, leafMax, if low then n.child2 else n.child1, d[f := s.term(s.q[f], plane)], middle)
  }

  /** The test that decides on the farther child. */
  predicate InReach(bound: real, epsError: real, worst: real) {
    bound * epsError <= worst
  }

  ghost function WalkOther(s: Scene, p: Policy, epsError: real, leafMax: nat, n: Node, d: seq<real>,
                           offered: seq<Entry>): seq<Entry>
    requires s.Valid() && p.Usable() && |d| == s.dim && WellFormed(s.data, s.dim, s.v, leafMax, n)
    decreases n, 1
  {
    if InReach(Sum(d), epsError, p.WorstAfter(offered)) then Walk(s, p, epsError, leafMax, n, d, offered) else offered
  }

  lemma AtLeaf(s: Scene, p: Policy, epsError: real, leafMax: nat, n: Node, d: seq<real>, offered: seq<Entry>)
    requires s.Valid() && p.Usable() && WellFormed(s.data, s.dim, s.v, leafMax, n) && IsLeaf(n)
    requires LowerBound(s, d, Lo(n), Hi(n))
    ensures |d| == s.dim && n.payload.Lr? && n.payload.left == Lo(n) <= n.payload.right == Hi(n) <= |s.v|
    ensures Walk(s, p, epsError, leafMax, n, d, offered) == WalkLeaf(s, p.WorstAfter(offered), Lo(n), Hi(n), offered)
  {
  }

  lemma AtInner(s: Scene, p: Policy, epsError: real, leafMax: nat, n: Node, d: seq<real>, offered: seq<Entry>)
    requires s.Valid() && p.Usable() && WellFormed(s.data, s.dim, s.v, leafMax, n) && !IsLeaf(n)
    requires LowerBound(s, d, Lo(n), Hi(n))
    ensures |d| == s.dim
    ensures var f, low := n.payload.divfeat, LowSide(s.q[n.payload.divfeat], n.payload);
            var middle := Walk(s, p, epsError, leafMax, if low then n.child1 else n.child2, d, offered);
            var plane := if low then n.payload.divhigh else n.payload.divlow;
            Walk(s, p, epsError, leafMax, n, d, offered)
            == WalkOther(s, p, epsError, leafMax, if low then n.child2 else n.child1,
                         d[f := s.term(s.q[f], plane)], middle)
  {
  }

  /** A child is visited exactly if some distance at or above its bound is still in reach when scaled. */
  lemma ReachMeaning(bound: real, epsError: real, worst: real)
    requires epsError >= 1.0
    ensures InReach(bound, epsError, worst) <==> exists x: real :: x >= bound && Times(epsError).up(x) <= worst
  {
    TimesIs(epsError, bound);
    forall x: real | x >= bound && Times(epsError).up(x) <= worst
      ensures InReach(bound, epsError, worst)
    {
      TimesIs(epsError, x);
      ScaledOrder(bound, x, epsError);
    }
  }

  lemma ScaledOrder(x: real, y: real, epsError: real)
    requires x <= y && epsError >= 1.0
    ensures x * epsError <= y * epsError
  {
  }

  /** The query lies on the low side of a split if it is nearer to divlow than to divhigh. */
  lemma LowSideMeaning(val: real, payload: Payload)
    requires payload.Sub? && payload.divlow <= payload.divhigh
    ensures LowSide(val, payload) <==> val < (payload.divlow + payload.divhigh) / 2.0
  {
  }

  /** The contribution of an axis to the distance from the query to a box. */
  function BoxCost(term: Axis, x: real, side: Interval): real {
    if x < side.low then term(x, side.low) else if x > side.high then term(x, side.high) else 0.0
  }

  /** It is the least cost of a coordinate inside the box, or nothing if the query is inside. */
  lemma BoxCostMeaning(term: Axis, x: real, side: Interval)
    requires Sound(term) && side.low <= side.high
    ensures forall y :: side.low <= y <= side.high ==> BoxCost(term, x, side) <= term(x, y)
    ensures if side.low <= x <= side.high then BoxCost(term, x, side) == 0.0
            else exists y :: side.low <= y <= side.high && BoxCost(term, x, side) == term(x, y)
  {
    forall y | side.low <= y <= side.high
      ensures BoxCost(term, x, side) <= term(x, y)
    {
      TermBounds(term, x, if x < side.low then side.low else side.high, y);
    }
    if x < side.low {
      assert BoxCost(term, x, side) == term(x, side.low);
    } else if x > side.high {
      assert BoxCost(term, x, side) == term(x, side.high);
    }
  }

  // ---------- searchLevel ----------

  /** The query data that the search reads are those of the scene. */
  ghost predicate Shows(s: Scene, m: Metric, data: Dataset, v: seq<nat>, q: Point) {
    s.Valid() && s.data == data && s.v == v && s.term == m.term && s.q == q
  }

  lemma LeafStart(s: Scene, p: Policy, acc: Accuracy, worst: real, left: nat, a: seq<Entry>)
    requires s.Valid() && p.Usable() && left <= |s.v| && AllBelow(a, p.Ceiling())
    ensures Visited(s, p, acc, left, left, a, a, []) && WalkLeaf(s, worst, left, left, a) == a
  {
  }

  lemma WalkLeafNext(s: Scene, worst: real, left: nat, i: nat, a: seq<Entry>)
    requires s.Valid() && left <= i < |s.v|
    ensures WalkLeaf(s, worst, left, i + 1, a)
         == WalkLeaf(s, worst, left, i, a) + if s.D(i) < worst then [s.EntryAt(i)] else []
  {
  }

  /** The loop over a leaf. Distances are compared with the bound read before the loop. */
  method VisitLeaf(ghost s: Scene, ghost acc: Accuracy, m: Metric, data: Dataset, vind: array<nat>, q: Point,
                   r: ResultSet, left: nat, right: nat)
    returns (ghost picks: seq<nat>)
    requires Shows(s, m, data, vind[..], q) && acc.Lawful() && left <= right <= vind.Length
    requires r.Valid() && vind !in r.Repr() && AllBelow(r.Offered(), r.Policy().Ceiling())
    modifies r.Repr()
    ensures r.Valid()
    ensures Visited(s, r.Policy(), acc, left, right, old(r.Offered()), r.Offered(), picks)
    ensures r.Offered() == WalkLeaf(s, r.Policy().WorstAfter(old(r.Offered())), left, right, old(r.Offered()))
  {
    hide Visited, WalkLeaf, AllBelow;
    BoundBelowCeiling(r.Policy(), r.Offered());
    var worst := r.WorstDist();
    picks := [];
    LeafStart(s, r.Policy(), acc, worst, left, r.Offered());
    for i := left to right
      invariant r.Valid() && vind[..] == s.v
      invariant Visited(s, r.Policy(), acc, left, i, old(r.Offered()), r.Offered(), picks)
      invariant r.Offered() == WalkLeaf(s, worst, left, i, old(r.Offered()))
    {
      WalkLeafNext(s, worst, left, i, old(r.Offered()));
      picks := VisitPoint(s, acc, m, data, vind, q, r, left, i, worst, old(r.Offered()), picks);
    }
  }

  /** One point of a leaf. */
  method VisitPoint(ghost s: Scene, ghost acc: Accuracy, m: Metric, data: Dataset, vind: array<nat>, q: Point,
                    r: ResultSet, ghost left: nat, i: nat, worst: real, ghost a: seq<Entry>, ghost picks: seq<nat>)
    returns (ghost picks': seq<nat>)
    requires Shows(s, m, data, vind[..], q) && acc.Lawful() && left <= i < vind.Length
    requires r.Valid() && vind !in r.Repr()
    requires worst == r.Policy().WorstAfter(a) && worst <= r.Policy().Ceiling()
    requires Visited(s, r.Policy(), acc, left, i, a, r.Offered(), picks)
    modifies r.Repr()
    ensures r.Valid()
    ensures Visited(s, r.Policy(), acc, left, i + 1, a, r.Offered(), picks')
    ensures r.Offered() == old(r.Offered()) + if s.D(i) < worst then [s.EntryAt(i)] else []
  {
    var index := vind[i];
    var dist := Evaluate(m, q, data[index]);
    ghost var b := r.Offered();
    if dist < worst {
      VisitPick(s, r.Policy(), acc, left, i, a, b, picks);
      r.AddPoint(dist, index);
      picks' := picks + [i];
    } else {
      VisitSkip(s, r.Policy(), acc, left, i, a, b, picks);
      picks' := picks;
    }
  }

  /** At an inner node the bound holds for either child, and for the one on the far side of the
      split it still holds with the cut distance in place of the split axis. */
  lemma Descend(s: Scene, leafMax: nat, n: Node, d: seq<real>)
    requires s.Valid() && WellFormed(s.data, s.dim, s.v, leafMax, n) && !IsLeaf(n)
    requires LowerBound(s, d, Lo(n), Hi(n))
    ensures n.payload.Sub? && n.payload.divfeat < s.dim
    ensures WellFormed(s.data, s.dim, s.v, leafMax, n.child1) && WellFormed(s.data, s.dim, s.v, leafMax, n.child2)
    ensures Lo(n) == Lo(n.child1) && Hi(n.child1) == Lo(n.child2) && Hi(n.child2) == Hi(n)
    ensures LowerBound(s, d, Lo(n.child1), Hi(n.child1)) && LowerBound(s, d, Lo(n.child2), Hi(n.child2))
    ensures var f, val := n.payload.divfeat, s.q[n.payload.divfeat];
            if LowSide(val, n.payload) then
              LowerBound(s, d[f := s.term(val, n.payload.divhigh)], Lo(n.child2), Hi(n.child2))
            else
              LowerBound(s, d[f := s.term(val, n.payload.divlow)], Lo(n.child1), Hi(n.child1))
  {
    SplitBounds(s.data, s.dim, s.v, leafMax, n);
    var f := n.payload.divfeat;
    if LowSide(s.q[f], n.payload) {
      CutUpdate(s, d, Lo(n.child2), Hi(n.child2), f, n.payload.divhigh);
    } else {
      CutUpdate(s, d, Lo(n.child1), Hi(n.child1), f, n.payload.divlow);
    }
  }

  /** searchLevel: on every call mindistsq is the sum of dists and dists bounds every point
      below the node, axis by axis; on return dists is what it was. */
  method SearchLevel(ghost s: Scene, ghost acc: Accuracy, m: Metric, data: Dataset, vind: array<nat>, q: Point,
                     r: ResultSet, ghost leafMax: nat, node: Node, mindistsq: real, dists: array<real>, epsError: real)
    returns (ghost picks: seq<nat>)
    requires Shows(s, m, data, vind[..], q) && WellFormed(data, s.dim, vind[..], leafMax, node)
    requires r.Valid() && vind !in r.Repr() && dists !in r.Repr() && AllBelow(r.Offered(), r.Policy().Ceiling())
    requires LowerBound(s, dists[..], Lo(node), Hi(node)) && mindistsq == Sum(dists[..])
    requires epsError >= 1.0 && acc == Times(epsError) && acc.Lawful()
    modifies r.Repr(), dists
    ensures r.Valid() && dists[..] == old(dists[..])
    ensures Visited(s, r.Policy(), acc, Lo(node), Hi(node), old(r.Offered()), r.Offered(), picks)
    ensures r.Offered() == Walk(s, r.Policy(), epsError, leafMax, node, old(dists[..]), old(r.Offered()))
    decreases node, 0
  {
    hide Sound, AllBelow, Visited, WalkLeaf, Walk, WalkOther, LowerBound, Sum, WellFormed;
    if IsLeaf(node) {
      AtLeaf(s, r.Policy(), epsError, leafMax, node, dists[..], r.Offered());
      picks := VisitLeaf(s, acc, m, data, vind, q, r, node.payload.left, node.payload.right);
      return;
    }
    Descend(s, leafMax, node, dists[..]);
    AtInner(s, r.Policy(), epsError, leafMax, node, dists[..], r.Offered());
    var idx := node.payload.divfeat;
    var val := q[idx];
    var diff1 := val - node.payload.divlow;
    var diff2 := val - node.payload.divhigh;
    var bestChild, otherChild, plane;
    if diff1 + diff2 < 0.0 {
      bestChild, otherChild, plane := node.child1, node.child2, node.payload.divhigh;
    } else {
      bestChild, otherChild, plane := node.child2, node.child1, node.payload.divlow;
    }
    var cutDist := m.term(val, plane);
    ghost var a := r.Offered();
    ghost var p1 := SearchLevel(s, acc, m, data, vind, q, r, leafMax, bestChild, mindistsq, dists, epsError);
    ghost var b := r.Offered();
    ghost var p2 := SearchOther(s, acc, m, data, vind, q, r, leafMax, otherChild, mindistsq, dists, idx, cutDist,
                                epsError);
    picks := p1 + p2;
    VisitTwo(s, r.Policy(), acc, Lo(bestChild), Hi(bestChild), Lo(otherChild), Hi(otherChild), Lo(node), Hi(node),
             a, b, r.Offered(), p1, p2);
  }

  /** The second half of searchLevel: the farther child, under the bound in which the cut
      distance replaces the contribution of the split axis. */
  method SearchOther(ghost s: Scene, ghost acc: Accuracy, m: Metric, data: Dataset, vind: array<nat>, q: Point,
                     r: ResultSet, ghost leafMax: nat, otherChild: Node, mindistsq: real, dists: array<real>,
                     idx: nat, cutDist: real, epsError: real)
    returns (ghost picks: seq<nat>)
    requires Shows(s, m, data, vind[..], q) && WellFormed(data, s.dim, vind[..], leafMax, otherChild)
    requires r.Valid() && vind !in r.Repr() && dists !in r.Repr() && AllBelow(r.Offered(), r.Policy().Ceiling())
    requires idx < dists.Length && mindistsq == Sum(dists[..])
    requires LowerBound(s, dists[..][idx := cutDist], Lo(otherChild), Hi(otherChild))
    requires epsError >= 1.0 && acc == Times(epsError) && acc.Lawful()
    modifies r.Repr(), dists
    ensures r.Valid() && dists[..] == old(dists[..])
    ensures Visited(s, r.Policy(), acc, Lo(otherChild), Hi(otherChild), old(r.Offered()), r.Offered(), picks)
    ensures r.Offered()
         == WalkOther(s, r.Policy(), epsError, leafMax, otherChild, old(dists[..])[idx := cutDist], old(r.Offered()))
    decreases otherChild, 1
  {
    hide Visited, Walk, WellFormed, LowerBound, AllBelow, Sum, InReach;
    ghost var d := dists[..];
    ghost var a := r.Offered();
    var dst := dists[idx];
    var mindist := mindistsq + cutDist - dst;
    SumUpdate(d, idx, cutDist);
    dists[idx] := cutDist;
    assert dists[..] == d[idx := cutDist];
    assert r.Offered() == a;
    var worst := r.WorstDist();
    picks := [];
    if InReach(mindist, epsError, worst) {
      picks := SearchLevel(s, acc, m, data, vind, q, r, leafMax, otherChild, mindist, dists, epsError);
    } else {
      VisitPruned(s, r.Policy(), epsError, dists[..], mindist, Lo(otherChild), Hi(otherChild), r.Offered());
    }
    ghost var c := r.Offered();
    dists[idx] := dst;
    assert dists[..] == d && r.Offered() == c;
  }

  /** computeInitialDistances: the bound of the whole box. */
  method ComputeInitialDistances(ghost s: Scene, m: Metric, q: Point, box: array<Interval>, dists: array<real>)
    returns (distsq: real)
    requires s.Valid() && s.term == m.term && s.q == q && dists.Length == s.dim && |s.v| > 0
    requires box[..] == TightBox(s.data, s.dim, s.v, 0, |s.v|)
    requires forall i :: 0 <= i < s.dim ==> dists[i] == 0.0
    modifies dists
    ensures distsq == Sum(dists[..]) && LowerBound(s, dists[..], 0, |s.v|)
    ensures forall i :: 0 <= i < s.dim ==> dists[i] == BoxCost(s.term, q[i], box[i])
  {
    distsq := 0.0;
    ZeroSum(dists[..]);
    for i := 0 to dists.Length
      invariant box[..] == TightBox(s.data, s.dim, s.v, 0, |s.v|)
      invariant distsq == Sum(dists[..])
      invariant forall j :: i <= j < s.dim ==> dists[j] == 0.0
      invariant forall j :: 0 <= j < i ==> dists[j] == BoxCost(s.term, q[j], box[j])
      invariant forall j, k :: 0 <= j < i && 0 <= k < |s.v| ==> dists[j] <= AxisCost(s, j, k)
    {
      ghost var before := dists[..];
      assert box[i] == box[..][i];
      Extremes(s.data, s.dim, s.v, 0, |s.v|, i);
      if q[i] < box[i].low {
        dists[i] := m.term(q[i], box[i].low);
        distsq := distsq + dists[i];
      }
      if q[i] > box[i].high {
        dists[i] := m.term(q[i], box[i].high);
        distsq := distsq + dists[i];
      }
      SumUpdate(before, i, dists[i]);
      assert dists[..] == before[i := dists[i]];
      forall k | 0 <= k < |s.v|
        ensures dists[i] <= AxisCost(s, i, k)
      {
        TermBounds(s.term, q[i], if q[i] < box[i].low then box[i].low else box[i].high, Coord(s.data, s.v[k], i));
      }
    }
  }

  lemma {:induction false} ZeroSum(d: seq<real>)
    requires forall i :: 0 <= i < |d| ==> d[i] == 0.0
    ensures Sum(d) == 0.0
  {
    if |d| > 0 {
      ZeroSum(d[..|d| - 1]);
    }
  }
}

/** Datasets, index arrays over them, rearrangements of such arrays, and their extreme coordinates. */
module PointSets {
  import opened Metrics

  type Dataset = seq<Point>

  datatype Interval = Interval(low: real, high: real)

  /** Every point has dim coordinates, and there is at least one axis. */
  ghost predicate Shaped(data: Dataset, dim: nat) {
    dim >= 1 && forall i :: 0 <= i < |data| ==> |data[i]| == dim
  }

  /** v holds indices into the dataset. */
  ghost predicate Indexes(data: Dataset, v: seq<nat>) {
    forall k :: 0 <= k < |v| ==> v[k] < |data|
  }

  /** dataset_get */
  function Coord(data: Dataset, i: nat, f: nat): real
    requires i < |data| && f < |data[i]|
  {
    data[i][f]
  }

  // ---------- Rearranging a range of an index array ----------

  /** b is a with the positions of [l, r) permuted and everything else in place. */
  ghost predicate Rearranged(a: seq<nat>, b: seq<nat>, l: nat, r: nat) {
    && l <= r <= |a| == |b|
    && (forall k :: 0 <= k < |a| && !(l <= k < r) ==> a[k] == b[k])
    && multiset(a) == multiset(b)
  }

  lemma SwapRearranges(a: seq<nat>, i: nat, j: nat, l: nat, r: nat)
    requires l <= i < j < r <= |a|
    ensures Rearranged(a, a[i := a[j]][j := a[i]], l, r)
  {
  }

  lemma MultisetSplit(a: seq<nat>, l: nat, r: nat)
    requires l <= r <= |a|
    ensures multiset(a) == multiset(a[..l]) + multiset(a[l..r]) + multiset(a[r..])
  {
    assert a == a[..l] + a[l..r] + a[r..];
  }

  lemma MultisetCancel(x: multiset<nat>, m: multiset<nat>, n: multiset<nat>, z: multiset<nat>)
    requires x + m + z == x + n + z
    ensures m == n
  {
    forall e
      ensures m[e] == n[e]
    {
      assert (x + m + z)[e] == (x + n + z)[e];
    }
  }

  /** The contents of the range itself are the same, counted with multiplicity. */
  lemma RearrangedRange(a: seq<nat>, b: seq<nat>, l: nat, r: nat)
    requires Rearranged(a, b, l, r)
    ensures multiset(a[l..r]) == multiset(b[l..r])
  {
    MultisetSplit(a, l, r);
    MultisetSplit(b, l, r);
    assert a[..l] == b[..l];
    assert a[r..] == b[r..];
    MultisetCancel(multiset(a[..l]), multiset(a[l..r]), multiset(b[l..r]), multiset(a[r..]));
  }

  /** What stands in the range afterwards stood in it before. */
  lemma RearrangedFrom(a: seq<nat>, b: seq<nat>, l: nat, r: nat, k: nat) returns (j: nat)
    requires Rearranged(a, b, l, r) && l <= k < r
    ensures l <= j < r && a[j] == b[k]
  {
    RearrangedRange(a, b, l, r);
    assert b[k] == b[l..r][k - l];
    assert b[k] in multiset(b[l..r]);
    assert b[k] in multiset(a[l..r]);
    var i :| 0 <= i < r - l && a[l..r][i] == b[k];
    j := l + i;
  }

  // ---------- Extreme coordinates of a range ----------

  function MinReal(a: real, b: real): real {
    if b < a then b else a
  }

  function MaxReal(a: real, b: real): real {
    if a < b then b else a
  }

  ghost predicate Range(data: Dataset, dim: nat, v: seq<nat>, l: nat, r: nat) {
    Shaped(data, dim) && Indexes(data, v) && l < r <= |v|
  }

  ghost function Lowest(data: Dataset, dim: nat, v: seq<nat>, l: nat, r: nat, f: nat): real
    requires Range(data, dim, v, l, r) && f < dim
    decreases r
  {
    if r == l + 1 then Coord(data, v[l], f)
    else MinReal(Lowest(data, dim, v, l, r - 1, f), Coord(data, v[r - 1], f))
  }

  ghost function Highest(data: Dataset, dim: nat, v: seq<nat>, l: nat, r: nat, f: nat): real
    requires Range(data, dim, v, l, r) && f < dim
    decreases r
  {
    if r == l + 1 then Coord(data, v[l], f)
    else MaxReal(Highest(data, dim, v, l, r - 1, f), Coord(data, v[r - 1], f))
  }

  /** Lowest and Highest bound the range and are attained in it. */
  lemma {:induction false} Extremes(data: Dataset, dim: nat, v: seq<nat>, l: nat, r: nat, f: nat)
    requires Range(data, dim, v, l, r) && f < dim
    ensures forall k :: l <= k < r ==>
              Lowest(data, dim, v, l, r, f) <= Coord(data, v[k], f) <= Highest(data, dim, v, l, r, f)
    ensures exists k :: l <= k < r && Coord(data, v[k], f) == Lowest(data, dim, v, l, r, f)
    ensures exists k :: l <= k < r && Coord(data, v[k], f) == Highest(data, dim, v, l, r, f)
    decreases r
  {
    var last := Coord(data, v[r - 1], f);
    if r > l + 1 {
      Extremes(data, dim, v, l, r - 1, f);
      var k1 :| l <= k1 < r - 1 && Coord(data, v[k1], f) == Lowest(data, dim, v, l, r - 1, f);
      var k2 :| l <= k2 < r - 1 && Coord(data, v[k2], f) == Highest(data, dim, v, l, r - 1, f);
      assert Lowest(data, dim, v, l, r, f) == last || Lowest(data, dim, v, l, r, f) == Coord(data, v[k1], f);
      assert Highest(data, dim, v, l, r, f) == last || Highest(data, dim, v, l, r, f) == Coord(data, v[k2], f);
    }
  }

  lemma {:induction false} ExtremesJoin(data: Dataset, dim: nat, v: seq<nat>, l: nat, m: nat, r: nat, f: nat)
    requires Range(data, dim, v, l, m) && Range(data, dim, v, m, r) && f < dim
    ensures Lowest(data, dim, v, l, r, f)
         == MinReal(Lowest(data, dim, v, l, m, f), Lowest(data, dim, v, m, r, f))
    ensures Highest(data, dim, v, l, r, f)
         == MaxReal(Highest(data, dim, v, l, m, f), Highest(data, dim, v, m, r, f))
    decreases r
  {
    if r > m + 1 {
      ExtremesJoin(data, dim, v, l, m, r - 1, f);
    }
  }

  lemma {:induction false} ExtremesFrame(data: Dataset, dim: nat, v: seq<nat>, w: seq<nat>, l: nat, r: nat, f: nat)
    requires Range(data, dim, v, l, r) && Range(data, dim, w, l, r) && f < dim
    requires v[l..r] == w[l..r]
    ensures Lowest(data, dim, v, l, r, f) == Lowest(data, dim, w, l, r, f)
    ensures Highest(data, dim, v, l, r, f) == Highest(data, dim, w, l, r, f)
    decreases r
  {
    assert v[r - 1] == v[l..r][r - 1 - l] == w[l..r][r - 1 - l] == w[r - 1];
    if r > l + 1 {
      assert v[l..r - 1] == v[l..r][..r - 1 - l] == w[l..r][..r - 1 - l] == w[l..r - 1];
      ExtremesFrame(data, dim, v, w, l, r - 1, f);
    }
  }

  /** The bounding box of a range: no larger than it has to be on any axis. */
  ghost function TightBox(data: Dataset, dim: nat, v: seq<nat>, l: nat, r: nat): (b: seq<Interval>)
    requires Range(data, dim, v, l, r)
    ensures |b| == dim
    ensures forall f :: 0 <= f < dim ==>
              b[f] == Interval(Lowest(data, dim, v, l, r, f), Highest(data, dim, v, l, r, f))
  {
    seq(dim, f requires 0 <= f < dim && Range(data, dim, v, l, r) =>
      Interval(Lowest(data, dim, v, l, r, f), Highest(data, dim, v, l, r, f)))
  }
}

/** KDTreeSingleIndexAdaptor: the index a caller builds, queries, saves and loads. */
module KdTree {
  import opened Wrappers
  import opened Metrics
  import opened PointSets
  import opened Trees
  import opened Entries
  import opened ResultSets
  import opened SearchTree
  import opened Answers
  import opened Accuracies
  import opened Persistence
  import BuildTree

  const NOT_BUILT := "findNeighbors() called before building the index."

  /** A snapshot that describes this dataset: a permuted index array and, once built, a
      well-formed tree over all of it with the exact bounding box. */
  ghost predicate Describes(s: Snapshot, data: Dataset) {
    && Shaped(data, s.dim) && s.leafMax >= 1 && s.size == |data|
    && Permutation(s.v, |data|)
    && (s.root.Node? ==>
          && |data| > 0
          && WellFormed(data, s.dim, s.v, s.leafMax, s.root)
          && Lo(s.root) == 0 && Hi(s.root) == |data|
          && s.box == TightBox(data, s.dim, s.v, 0, |data|))
  }

  /** Everything that a query of a built index offers to a result set that already holds some
      history: a function of the saved state, the data and the query alone. */
  ghost function Search(data: Dataset, term: Axis, s: Snapshot, q: Point, p: Policy, eps: real,
                        offered: seq<Entry>): seq<Entry>
    requires Sound(term) && Describes(s, data) && s.root.Node? && |q| == s.dim && p.Usable()
  {
    Walk(Scene(data, s.dim, s.v, term, q), p, 1.0 + eps, s.leafMax, s.root, BoxCosts(term, q, s.box), offered)
  }

  /** What a radius query collects, in the order of the walk. */
  ghost function FoundWithin(data: Dataset, term: Axis, s: Snapshot, q: Point, radius: real, eps: real): seq<Entry>
    requires Sound(term) && Describes(s, data) && s.root.Node? && |q| == s.dim
  {
    Within(Search(data, term, s, q, WithinRadius(radius), eps, []), radius)
  }

  /** The answer of an exact k-nearest query: the brute-force one and, even where distances tie,
      a function of the saved state, the data and the query alone. */
  ghost predicate KnnFound(data: Dataset, term: Axis, s: Snapshot, q: Point, k: nat, sentinel: real, out: seq<Entry>)
    requires Sound(term) && Describes(s, data) && s.root.Node? && |q| == s.dim && k > 0
  {
    && ExactKnnAnswer(data, term, q, k, sentinel, out)
    && out == Nearest(Search(data, term, s, q, NearestK(k, sentinel), 0.0, []), k)
  }

  /** The answer of a radius query: at any accuracy, everything inside the radius but what is only
      within 1 + eps of it, and a function of the saved state, the data and the query alone. With
      eps = 0 nothing is missing and the sorted answer is one fixed list. */
  ghost predicate RadiusFound(data: Dataset, term: Axis, s: Snapshot, q: Point, radius: real, eps: real,
                              sorted: bool, items: seq<Entry>)
    requires Sound(term) && Describes(s, data) && s.root.Node? && |q| == s.dim && eps >= 0.0
  {
    var all, found := AllEntries(data, term, q), FoundWithin(data, term, s, q, radius, eps);
    && RadiusAnswer(data, term, q, radius, Times(1.0 + eps), items)
    && items == (if sorted then SortInOrder(found) else found)
    && (sorted ==> InOrder(items))
    && (eps == 0.0 ==> |items| == CountBelow(all, radius))
    && (eps == 0.0 && sorted ==> items == SortInOrder(Within(all, radius)))
  }

  function BoxCosts(term: Axis, q: Point, box: seq<Interval>): (d: seq<real>)
    requires |q| == |box|
    ensures |d| == |q| && forall i :: 0 <= i < |d| ==> d[i] == BoxCost(term, q[i], box[i])
  {
    seq(|q|, i requires 0 <= i < |q| == |box| => BoxCost(term, q[i], box[i]))
  }

  class KdTreeIndex {
    const data: Dataset
    const metric: Metric
    const sentinel: real
    var size: nat
    var dim: nat
    var leafMax: nat
    var vind: array<nat>
    var rootBox: array<Interval>
    var root: Node

    ghost function State(): Snapshot
      reads this, vind, rootBox
    {
      Snapshot(size, dim, rootBox[..], leafMax, vind[..], root)
    }

    ghost predicate Valid()
      reads this, vind, rootBox
    {
      Sound(metric.term) && Describes(State(), data)
    }

    constructor (dim: nat, data: Dataset, metric: Metric, leafMax: nat, sentinel: real)
      requires Shaped(data, dim) && Sound(metric.term) && leafMax >= 1
      ensures Valid() && root == Null && fresh(vind) && fresh(rootBox)
      ensures this.data == data && this.metric == metric && this.sentinel == sentinel
      ensures this.dim == dim && this.leafMax == leafMax
    {
      this.data := data;
      this.metric := metric;
      this.sentinel := sentinel;
      this.size := |data|;
      this.dim := dim;
      this.leafMax := leafMax;
      root := Null;
      vind := new nat[|data|](k => k);
      rootBox := new Interval[0](_ => Interval(0.0, 0.0));
      new;
      assert vind[..] == Identity(|data|);
      RearrangedIdentity(vind[..], |data|);
    }

    /** buildIndex */
    method BuildIndex()
      requires Valid()
      modifies this, vind
      ensures Valid()
      ensures vind == old(vind) && fresh(rootBox)
      ensures dim == old(dim) && leafMax == old(leafMax)
      ensures root.Node? <==> |data| > 0
      ensures |data| > 0 ==> NodeCount(root) <= 2 * |data| - 1 && Tiles(Leaves(root), 0, |data|, leafMax)
    {
      for i := 0 to vind.Length
        invariant dim == old(dim) && leafMax == old(leafMax) && size == old(size) && vind == old(vind)
        invariant forall k :: 0 <= k < i ==> vind[k] == k
      {
        vind[i] := i;
      }
      ghost var first := vind[..];
      assert first == Identity(|data|);
      RearrangedIdentity(first, |data|);
      root := Null;
      rootBox := new Interval[dim](_ => Interval(0.0, 0.0));
      if size == 0 {
        return;
      }
      BuildTree.ComputeBoundingBox(data, dim, first, rootBox);
      root := BuildTree.DivideTree(data, dim, leafMax, vind, 0, size, rootBox);
      RearrangedIdentity(vind[..], |data|);
      NodeBudget(data, dim, vind[..], leafMax, root);
      LeavesTile(data, dim, vind[..], leafMax, root);
    }

    /** This query against this index. */
    ghost function SceneOf(q: Point): Scene
      reads this, vind
    {
      Scene(data, dim, vind[..], metric.term, q)
    }

    lemma SceneValid(q: Point)
      requires Valid() && |q| == dim
      ensures SceneOf(q).Valid() && Permutation(SceneOf(q).v, |SceneOf(q).data|) && |SceneOf(q).v| == |data|
      ensures SceneOf(q).data == data && SceneOf(q).term == metric.term && SceneOf(q).q == q
      ensures forall i :: 0 <= i < |data| ==> |data[i]| == |q|
    {
    }

    lemma TreeHasPoints()
      requires Valid() && root.Node?
      ensures |data| > 0
    {
    }

    lemma QueryFits(q: Point)
      requires Valid() && |q| == dim
      ensures forall i :: 0 <= i < |data| ==> |data[i]| == |q|
      ensures root.Node? ==> |data| > 0
      ensures Sound(metric.term) && Describes(State(), data) && State().root == root && State().dim == dim
    {
    }

    /** The search proper, once there is a tree. */
    method VisitAll(result: ResultSet, q: Point, eps: real) returns (ghost picks: seq<nat>)
      requires Valid() && root.Node? && |q| == dim && eps >= 0.0
      requires result.Valid() && AllBelow(result.Offered(), result.Policy().Ceiling())
      requires this !in result.Repr() && vind !in result.Repr() && rootBox !in result.Repr()
      modifies result.Repr()
      ensures result.Valid()
      ensures Visited(old(SceneOf(q)), result.Policy(), Times(1.0 + eps), 0, |data|,
                      old(result.Offered()), result.Offered(), picks)
      ensures result.Offered()
           == Search(data, metric.term, old(State()), q, result.Policy(), eps, old(result.Offered()))
    {
      var epsError := 1.0 + eps;
      var dists := new real[dim](_ => 0.0);
      ghost var s := SceneOf(q);
      TimesLawful(epsError);
      var distsq := ComputeInitialDistances(s, metric, q, rootBox, dists);
      assert dists[..] == BoxCosts(metric.term, q, rootBox[..]);
      picks := SearchLevel(s, Times(epsError), metric, data, vind, q, result, leafMax, root, distsq, dists, epsError);
    }

    /** findNeighbors: one visit of the whole tree. The error is the exception for an index that
        was not built. */
    method FindNeighbors(result: ResultSet, q: Point, eps: real) returns (full: Result<bool>, ghost picks: seq<nat>)
      requires Valid() && |q| == dim && eps >= 0.0
      requires result.Consistent() && AllBelow(result.Offered(), result.Policy().Ceiling())
      requires |data| > 0 ==> result.Policy().Usable()
      requires this !in result.Repr() && vind !in result.Repr() && rootBox !in result.Repr()
      modifies result.Repr()
      ensures result.Consistent()
      ensures |data| == 0 ==> full == Ok(false)
      ensures |data| > 0 ==> if root.Node? then full.Ok? else full == Err(NOT_BUILT)
      ensures root.Null? ==> result.Offered() == old(result.Offered())
      ensures root.Node? ==>
                && full == Ok(result.Radius? || |result.Offered()| >= result.knn.capacity)
                && Visited(old(SceneOf(q)), result.Policy(), Times(1.0 + eps), 0, |data|,
                           old(result.Offered()), result.Offered(), picks)
                && result.Offered()
                   == Search(data, metric.term, old(State()), q, result.Policy(), eps, old(result.Offered()))
    {
      picks := [];
      if size == 0 {
        return Ok(false), picks;
      }
      if root.Null? {
        return Err(NOT_BUILT), picks;
      }
      picks := VisitAll(result, q, eps);
      var b := result.Full();
      full := Ok(b);
    }

    /** findNeighbors with a k-nearest result set, at any accuracy: the i-th distance found is at
        least the true i-th smallest one and at most 1 + eps times that. */
    method FindNearest(q: Point, set': KnnResultSet, eps: real) returns (full: Result<bool>)
      requires Valid() && |q| == dim && eps >= 0.0
      requires set'.Valid() && set'.offered == [] && set'.indices != vind
      requires |data| > 0 ==> set'.capacity > 0
      modifies set', set'.indices, set'.dists
      ensures set'.Valid()
      ensures |data| == 0 ==> full == Ok(false) && set'.offered == []
      ensures |data| > 0 ==> if root.Node? then full.Ok? else full == Err(NOT_BUILT)
      ensures root.Node? ==>
                && KnnAnswer(data, metric.term, q, set'.capacity, set'.sentinel, Times(1.0 + eps), set'.Contents())
                && set'.offered
                   == Search(data, metric.term, State(), q, NearestK(set'.capacity, set'.sentinel), eps, [])
      ensures root.Node? ==>
                && (forall i :: 0 <= i < set'.count ==>
                      && set'.indices[i] < |data|
                      && set'.dists[i] == Dist(metric.term, q, data[set'.indices[i]]) < set'.sentinel)
                && (forall i, j :: 0 <= i < j < set'.count ==>
                      set'.dists[i] <= set'.dists[j] && set'.indices[i] != set'.indices[j])
                && (forall p :: 0 <= p < |data| && p !in set'.indices[..set'.count] ==>
                      || Times(1.0 + eps).up(Dist(metric.term, q, data[p])) >= set'.sentinel
                      || (set'.count == set'.capacity
                          && forall i :: 0 <= i < set'.count ==>
                               set'.dists[i] <= Times(1.0 + eps).up(Dist(metric.term, q, data[p]))))
    {
      SceneValid(q);
      hide Visited, KnnAnswer, Search, Describes, Permutation, Nearest, Times, AllEntries, AllBelow;
      ghost var scene := SceneOf(q);
      assert Knn(set').Offered() == [];
      NothingOffered(set'.sentinel);
      ghost var picks;
      full, picks := FindNeighbors(Knn(set'), q, eps);
      if root.Node? {
        TimesLawful(1.0 + eps);
        KnnFromVisit(scene, NearestK(set'.capacity, set'.sentinel), Times(1.0 + eps), set'.offered, picks);
        PointsOf(set', data, metric.term, q, Times(1.0 + eps));
      }
    }

    /** The filled part of the caller's arrays after an exact search. */
    lemma ExactContents(r: KnnResultSet, q: Point)
      requires Valid() && root.Node? && |q| == dim && r.Valid() && r.capacity > 0
      requires KnnAnswer(data, metric.term, q, r.capacity, r.sentinel, Times(1.0), r.Contents())
      requires r.offered == Search(data, metric.term, State(), q, NearestK(r.capacity, r.sentinel), 0.0, [])
      ensures KnnFound(data, metric.term, State(), q, r.capacity, r.sentinel,
                       Zip(r.dists[..r.count], r.indices[..r.count]))
    {
      QueryFits(q);
      hide Sound, Describes, KnnAnswer, ExactKnnAnswer, Search, Nearest, Times, AllEntries;
      ExactKnn(data, metric.term, q, r.capacity, r.sentinel, r.Contents());
    }

    /** knnSearch: for every dataset, query, k and leaf size, the distances are the first ones of
        the ascending brute-force list, and no point below the sentinel is missing. With k = 0 the
        bound of the set would be read in front of the array, unless there is nothing to search. */
    method KnnSearch(q: Point, k: nat, outIndices: array<nat>, outDists: array<real>) returns (found: Result<nat>)
      requires Valid() && |q| == dim
      requires k <= outIndices.Length && k <= outDists.Length && outIndices != vind
      requires |data| > 0 ==> k >= 1
      modifies outIndices, outDists
      ensures |data| == 0 ==> found == Ok(0)
      ensures |data| > 0 ==> if root.Node? then found.Ok? else found == Err(NOT_BUILT)
      ensures root.Node? ==>
                && found.value <= k
                && KnnFound(data, metric.term, State(), q, k, sentinel,
                            Zip(outDists[..found.value], outIndices[..found.value]))
      ensures root.Node? ==>
                && (forall i :: 0 <= i < found.value ==>
                      && outIndices[i] < |data|
                      && outDists[i] == Dist(metric.term, q, data[outIndices[i]]) < sentinel)
                && (forall i, j :: 0 <= i < j < found.value ==>
                      outDists[i] <= outDists[j] && outIndices[i] != outIndices[j])
                && (forall p :: 0 <= p < |data| && p !in outIndices[..found.value] ==>
                      || Dist(metric.term, q, data[p]) >= sentinel
                      || (found.value == k
                          && forall i :: 0 <= i < k ==> outDists[i] <= Dist(metric.term, q, data[p])))
    {
      hide Sound, Describes, KnnAnswer, KnnFound, Search, Nearest, Times, AllEntries;
      var set' := new KnnResultSet(k, outIndices, outDists, sentinel);
      var full := FindNearest(q, set', 0.0);
      if full.Err? {
        found := Err(full.message);
      } else {
        var n := set'.Size();
        found := Ok(n);
        if root.Node? {
          TreeHasPoints();
          ExactContents(set', q);
          NothingScaled(1.0 + 0.0);
        }
      }
    }

    /** radiusSearchCustomCallback, with the radius result set. */
    method RadiusSearchCallback(q: Point, result: RadiusResultSet, eps: real) returns (nFound: Result<nat>)
      requires Valid() && |q| == dim && eps >= 0.0
      requires result.Valid() && result.offered == []
      modifies result
      ensures |data| == 0 ==> nFound == Ok(0) && result.items == []
      ensures |data| > 0 ==> if root.Node? then nFound.Ok? else nFound == Err(NOT_BUILT)
      ensures root.Node? ==> nFound == Ok(|result.items|)
                             && RadiusAnswer(data, metric.term, q, result.radius, Times(1.0 + eps), result.items)
                             && result.items == FoundWithin(data, metric.term, State(), q, result.radius, eps)
    {
      SceneValid(q);
      hide Visited, RadiusAnswer, Search, Describes, Permutation, Times, AllEntries, AllBelow;
      ghost var scene := SceneOf(q);
      var set' := Radius(result);
      assert set'.Offered() == [] && set'.Policy() == WithinRadius(result.radius);
      NothingOffered(set'.Policy().Ceiling());
      var full, picks := FindNeighbors(set', q, eps);
      if full.Err? {
        return Err(full.message);
      }
      nFound := Ok(|result.items|);
      if root.Node? {
        TimesLawful(1.0 + eps);
        ghost var after := result.offered;
        assert set'.Offered() == after;
        assert Visited(scene, WithinRadius(result.radius), Times(1.0 + eps), 0, |data|, [], after, picks);
        RadiusFromVisit(scene, WithinRadius(result.radius), Times(1.0 + eps), after, picks);
      }
    }

    /** radiusSearch. With eps = 0 and sorting, the answer is one fixed list: it does not depend
        on the leaf size or the shape of the tree. */
    method RadiusSearch(q: Point, radius: real, eps: real, sorted: bool)
      returns (nFound: Result<nat>, items: seq<Entry>)
      requires Valid() && |q| == dim && eps >= 0.0
      ensures |data| == 0 ==> nFound == Ok(0) && items == []
      ensures |data| > 0 ==> if root.Node? then nFound.Ok? else nFound == Err(NOT_BUILT)
      ensures root.Node? ==>
                && nFound == Ok(|items|)
                && RadiusFound(data, metric.term, State(), q, radius, eps, sorted, items)
      ensures root.Node? ==>
                && (forall e :: e in items ==>
                      e.index < |data| && e.dist == Dist(metric.term, q, data[e.index]) < radius)
                && (forall i, j :: 0 <= i < j < |items| ==> items[i].index != items[j].index)
                && (forall p :: 0 <= p < |data| && Times(1.0 + eps).up(Dist(metric.term, q, data[p])) < radius ==>
                      Entry(Dist(metric.term, q, data[p]), p) in items)
      ensures root.Node? && sorted ==>
                forall i, j :: 0 <= i < j < |items| ==>
                  || items[i].dist < items[j].dist
                  || (items[i].dist == items[j].dist && items[i].index < items[j].index)
    {
      hide Sound, Describes, RadiusAnswer, RadiusFound, FoundWithin, SortInOrder, Times, AllEntries;
      var result := new RadiusResultSet(radius);
      nFound := RadiusSearchCallback(q, result, eps);
      items := if sorted then SortInOrder(result.items) else result.items;
      if root.Node? {
        RadiusCollected(data, metric.term, State(), q, radius, eps, sorted, result.items);
        RadiusPointsOf(data, metric.term, State(), q, radius, eps, sorted, items);
      } else if |data| == 0 {
        NothingToSort();
      }
    }

    /** saveIndex. A tree must have been built. */
    method SaveIndex(stream: FileStream)
      requires Valid() && root.Node? && stream.Valid()
      modifies stream`records
      ensures stream.Valid() && stream.records == old(stream.records) + IndexRecords(State())
      ensures IndexRecords(State())
           == [SizeRecord(size), DimRecord(dim), BoxRecord(rootBox[..]), LeafMaxRecord(leafMax),
               IndicesRecord(vind[..])] + TreeRecords(root)
    {
      stream.Write(SizeRecord(size));
      stream.Write(DimRecord(dim));
      stream.Write(BoxRecord(rootBox[..]));
      stream.Write(LeafMaxRecord(leafMax));
      stream.Write(IndicesRecord(vind[..]));
      SaveTree(stream, root);
    }

    /** The part of loadIndex in front of the tree. */
    method LoadFields(stream: FileStream) returns (ok: bool)
      requires stream.Valid()
      modifies this, stream`pos
      ensures stream.Valid()
      ensures State() == LoadedFields(old(State()), old(stream.Rest()))
      ensures ok <==> HasHeader(old(stream.Rest()))
      ensures ok ==> stream.Rest() == old(stream.Rest())[5..]
      ensures ok ==> fresh(vind) && fresh(rootBox)
    {
      ghost var before, rest := State(), stream.Rest();
      var r := stream.Read();
      if r.None? || !r.value.SizeRecord? { return false; }
      size := r.value.size;
      r := stream.Read();
      if r.None? || !r.value.DimRecord? { return false; }
      dim := r.value.dim;
      r := stream.Read();
      if r.None? || !r.value.BoxRecord? { return false; }
      rootBox := BoxArray(r.value.box);
      assert State() == before.(size := rest[0].size, dim := rest[1].dim, box := rest[2].box);
      r := stream.Read();
      if r.None? || !r.value.LeafMaxRecord? { return false; }
      leafMax := r.value.leafMax;
      r := stream.Read();
      if r.None? || !r.value.IndicesRecord? { return false; }
      vind := IndexArray(r.value.v);
      ok := true;
    }

    /** loadIndex: on success the whole state is the saved one, and only its records are read.
        A failure leaves the fields read so far overwritten, and a half-read tree in the root. */
    method LoadIndex(stream: FileStream) returns (ok: bool)
      requires stream.Valid()
      modifies this, stream`pos
      ensures stream.Valid()
      ensures ok <==> ParseIndex(old(stream.Rest())).Some?
      ensures ok ==> ParseIndex(old(stream.Rest())) == Some((State(), stream.Rest()))
      ensures ok ==> fresh(vind) && fresh(rootBox)
      ensures !ok ==> State() == LoadedFields(old(State()), old(stream.Rest())).(root := root)
      ensures !ok && !HasHeader(old(stream.Rest())) ==> root == old(root)
    {
      ok := LoadFields(stream);
      if !ok {
        return;
      }
      ghost var fields := State();
      var tree := LoadTree(stream);
      if tree.None? {
        root := *;
        return false;
      }
      root := tree.value;
      assert State() == fields.(root := root);
    }
  }

  /** An answer, as the two arrays hold it. */
  lemma PointsOf(r: KnnResultSet, data: Dataset, term: Axis, q: Point, acc: Accuracy)
    requires r.Valid() && forall i :: 0 <= i < |data| ==> |data[i]| == |q|
    requires KnnAnswer(data, term, q, r.capacity, r.sentinel, acc, r.Contents())
    ensures forall i :: 0 <= i < r.count ==>
              r.indices[i] < |data| && r.dists[i] == Dist(term, q, data[r.indices[i]]) < r.sentinel
    ensures forall i, j :: 0 <= i < j < r.count ==> r.dists[i] <= r.dists[j] && r.indices[i] != r.indices[j]
    ensures forall p :: 0 <= p < |data| && p !in r.indices[..r.count] ==>
              || acc.up(Dist(term, q, data[p])) >= r.sentinel
              || (r.count == r.capacity
                  && forall i :: 0 <= i < r.count ==> r.dists[i] <= acc.up(Dist(term, q, data[p])))
  {
    hide KnnAnswer, Nearest;
    var dists, indices := r.dists[..r.count], r.indices[..r.count];
    PointsOfLists(dists, indices, r.capacity, r.sentinel, data, term, q, acc);
    assert forall i :: 0 <= i < r.count ==> r.dists[i] == dists[i] && r.indices[i] == indices[i];
  }

  lemma PointsOfLists(dists: seq<real>, indices: seq<nat>, k: nat, sentinel: real, data: Dataset, term: Axis, q: Point,
                      acc: Accuracy)
    requires |dists| == |indices| && forall i :: 0 <= i < |data| ==> |data[i]| == |q|
    requires KnnAnswer(data, term, q, k, sentinel, acc, Zip(dists, indices))
    ensures forall i :: 0 <= i < |dists| ==>
              indices[i] < |data| && dists[i] == Dist(term, q, data[indices[i]]) < sentinel
    ensures forall i, j :: 0 <= i < j < |dists| ==> dists[i] <= dists[j] && indices[i] != indices[j]
    ensures forall p :: 0 <= p < |data| && p !in indices ==>
              || acc.up(Dist(term, q, data[p])) >= sentinel
              || (|dists| == k && forall i :: 0 <= i < |dists| ==> dists[i] <= acc.up(Dist(term, q, data[p])))
  {
    hide KnnAnswer;
    var out := Zip(dists, indices);
    AnsweredPoints(data, term, q, k, sentinel, acc, out);
    NoneNearer(data, term, q, k, sentinel, acc, out);
    assert forall i :: 0 <= i < |dists| ==> out[i].dist == dists[i] && out[i].index == indices[i];
  }

  lemma RadiusPointsOf(data: Dataset, term: Axis, s: Snapshot, q: Point, radius: real, eps: real,
                       sorted: bool, items: seq<Entry>)
    requires Sound(term) && Describes(s, data) && s.root.Node? && |q| == s.dim && eps >= 0.0
    requires RadiusFound(data, term, s, q, radius, eps, sorted, items)
    ensures forall e :: e in items ==>
              e.index < |data| && e.dist == Dist(term, q, data[e.index]) < radius
    ensures forall i, j :: 0 <= i < j < |items| ==> items[i].index != items[j].index
    ensures forall p :: 0 <= p < |data| && Times(1.0 + eps).up(Dist(term, q, data[p])) < radius ==>
              Entry(Dist(term, q, data[p]), p) in items
    ensures sorted ==>
              forall i, j :: 0 <= i < j < |items| ==>
                || items[i].dist < items[j].dist
                || (items[i].dist == items[j].dist && items[i].index < items[j].index)
  {
    hide Sound, RadiusAnswer, FoundWithin, SortInOrder, Times, AllEntries, Within, CountBelow, InOrder;
    RadiusPoints(data, term, q, radius, Times(1.0 + eps), items);
    if sorted {
      OrderedPoints(items);
    }
  }

  lemma RadiusCollected(data: Dataset, term: Axis, s: Snapshot, q: Point, radius: real, eps: real,
                        sorted: bool, found: seq<Entry>)
    requires Sound(term) && Describes(s, data) && s.root.Node? && |q| == s.dim && eps >= 0.0
    requires RadiusAnswer(data, term, q, radius, Times(1.0 + eps), found)
    requires found == FoundWithin(data, term, s, q, radius, eps)
    ensures var items := if sorted then SortInOrder(found) else found;
            |items| == |found| && RadiusFound(data, term, s, q, radius, eps, sorted, items)
  {
    hide Sound, RadiusAnswer, FoundWithin, SortInOrder, Times, AllEntries, Within, CountBelow, InOrder;
    SortInOrderMeaning(found);
    SortKeepsRadiusAnswer(data, term, q, radius, Times(1.0 + eps), found);
    if eps == 0.0 {
      ExactRadius(data, term, q, radius, found);
    }
  }

  lemma NothingOffered(bound: real)
    ensures AllBelow([], bound)
  {
  }

  lemma NothingToSort()
    ensures SortInOrder([]) == []
  {
  }

  method BoxArray(box: seq<Interval>) returns (a: array<Interval>)
    ensures fresh(a) && a[..] == box
  {
    a := new Interval[|box|](i requires 0 <= i < |box| => box[i]);
  }

  method IndexArray(v: seq<nat>) returns (a: array<nat>)
    ensures fresh(a) && a[..] == v
  {
    a := new nat[|v|](i requires 0 <= i < |v| => v[i]);
  }

  /** Saving one index, writing anything behind it, and loading another one over the same dataset
      from where the first was saved: the second is then in the same state, and what was written
      behind is still unread. */
  method SaveThenLoad(built: KdTreeIndex, other: KdTreeIndex, stream: FileStream, suffix: seq<Record>)
    requires built.Valid() && built.root.Node? && built != other
    requires Sound(other.metric.term) && other.data == built.data
    requires stream.Valid()
    modifies stream, other
    ensures built.Valid() && built.State() == old(built.State())
    ensures other.Valid() && other.State() == built.State() && fresh(other.vind) && fresh(other.rootBox)
    ensures stream.Valid() && stream.Rest() == suffix
  {
    var start := |stream.records|;
    built.SaveIndex(stream);
    ghost var saved := stream.records;
    for i := 0 to |suffix|
      invariant stream.Valid() && stream.records == saved + suffix[..i]
      invariant built.Valid() && built.State() == old(built.State())
    {
      stream.Write(suffix[i]);
    }
    stream.pos := start;
    assert stream.Rest() == IndexRecords(built.State()) + suffix;
    IndexRoundTrip(stream.Rest(), built.State(), suffix);
    var ok := other.LoadIndex(stream);
  }

  lemma OneNearest(data: Dataset, term: Axis, s: Snapshot, q: Point, k: nat, sentinel: real,
                   d1: seq<real>, i1: seq<nat>, d2: seq<real>, i2: seq<nat>)
    requires Sound(term) && Describes(s, data) && s.root.Node? && |q| == s.dim && k > 0
    requires |d1| == |i1| && |d2| == |i2|
    requires KnnFound(data, term, s, q, k, sentinel, Zip(d1, i1))
    requires KnnFound(data, term, s, q, k, sentinel, Zip(d2, i2))
    ensures d1 == d2 && i1 == i2
  {
    hide Sound, Describes, ExactKnnAnswer, Search, Nearest;
    ZipInjective(d1, i1, d2, i2);
  }

  /** Two indices over the same dataset in the same state, one of them loaded from what the other
      saved, say, give the same answer to every k-nearest query, down to the order of ties ... */
  method SameNearest(built: KdTreeIndex, loaded: KdTreeIndex, q: Point, k: nat, indices1: array<nat>,
                     dists1: array<real>, indices2: array<nat>, dists2: array<real>)
    returns (n1: Result<nat>, n2: Result<nat>)
    requires built.Valid() && loaded.Valid() && built.State() == loaded.State()
    requires built.data == loaded.data && built.metric.term == loaded.metric.term && built.sentinel == loaded.sentinel
    requires |q| == built.dim && (|built.data| > 0 ==> k >= 1)
    requires k <= indices1.Length && k <= dists1.Length && k <= indices2.Length && k <= dists2.Length
    requires indices1 !in {indices2, built.vind, loaded.vind} && indices2 !in {built.vind, loaded.vind}
    requires dists1 != dists2
    modifies indices1, dists1, indices2, dists2
    ensures n1 == n2
    ensures n1.Ok? ==> n1.value <= k && dists1[..n1.value] == dists2[..n1.value]
                       && indices1[..n1.value] == indices2[..n1.value]
  {
    hide KnnFound, Zip, Sound, Describes;
    n1 := built.KnnSearch(q, k, indices1, dists1);
    n2 := loaded.KnnSearch(q, k, indices2, dists2);
    if built.root.Node? {
      built.TreeHasPoints();
      OneNearest(built.data, built.metric.term, built.State(), q, k, built.sentinel,
                 dists1[..n1.value], indices1[..n1.value], dists2[..n2.value], indices2[..n2.value]);
    }
  }

  /** ... and to every radius query, sorted or not, at any accuracy. */
  method SameWithin(built: KdTreeIndex, loaded: KdTreeIndex, q: Point, radius: real, eps: real, sorted: bool)
    returns (n1: Result<nat>, items1: seq<Entry>, n2: Result<nat>, items2: seq<Entry>)
    requires built.Valid() && loaded.Valid() && built.State() == loaded.State()
    requires built.data == loaded.data && built.metric.term == loaded.metric.term
    requires |q| == built.dim && eps >= 0.0
    ensures n1 == n2 && (n1.Ok? ==> items1 == items2)
  {
    hide Sound, Describes, RadiusAnswer, FoundWithin, SortInOrder, Times, AllEntries, Within, InOrder;
    n1, items1 := built.RadiusSearch(q, radius, eps, sorted);
    n2, items2 := loaded.RadiusSearch(q, radius, eps, sorted);
  }
}

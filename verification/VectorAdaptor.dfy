/** KDTreeVectorOfVectorsAdaptor: builds its index on construction and answers k-nearest queries. */
module VectorAdaptor {
  import opened Metrics
  import opened PointSets
  import opened Entries
  import opened ResultSets
  import opened Answers
  import opened KdTree
  import opened Accuracies

  class VectorOfVectorsAdaptor {
    const index: KdTreeIndex

    ghost predicate Valid()
      reads index, index.vind, index.rootBox
    {
      index.Valid() && (|index.data| > 0 ==> index.root.Node?)
    }

    /** The dataset is never empty of axes, and leaves hold at least one point. */
    constructor (dimensionality: nat, data: Dataset, metric: Metric, leafMaxSize: nat, sentinel: real)
      requires Shaped(data, dimensionality) && Sound(metric.term) && leafMaxSize >= 1
      ensures Valid() && index.data == data && index.metric == metric && index.dim == dimensionality
      ensures index.sentinel == sentinel && fresh(index) && fresh(index.vind) && fresh(index.rootBox)
    {
      var i := new KdTreeIndex(dimensionality, data, metric, leafMaxSize, sentinel);
      i.BuildIndex();
      index := i;
    }

    /** query: no call fails, and the first min(k, number of points below the sentinel) entries of
        the caller's arrays are the exact answer. */
    method Query(q: Point, k: nat, outIndices: array<nat>, outDists: array<real>)
      requires Valid() && |q| == index.dim
      requires k <= outIndices.Length && k <= outDists.Length && outIndices != index.vind
      requires |index.data| > 0 ==> k >= 1
      modifies outIndices, outDists
      ensures |index.data| > 0 ==>
                var n := Min(k, CountBelow(AllEntries(index.data, index.metric.term, q), index.sentinel));
                && ExactKnnAnswer(index.data, index.metric.term, q, k, index.sentinel,
                                  Zip(outDists[..n], outIndices[..n]))
                && (forall i :: 0 <= i < n ==>
                      && outIndices[i] < |index.data|
                      && outDists[i] == Dist(index.metric.term, q, index.data[outIndices[i]]) < index.sentinel)
                && (forall i, j :: 0 <= i < j < n ==>
                      outDists[i] <= outDists[j] && outIndices[i] != outIndices[j])
                && (forall p :: 0 <= p < |index.data| && p !in outIndices[..n] ==>
                      || Dist(index.metric.term, q, index.data[p]) >= index.sentinel
                      || (n == k
                          && forall i :: 0 <= i < k ==> outDists[i] <= Dist(index.metric.term, q, index.data[p])))
    {
      hide KnnAnswer, ExactKnnAnswer, Search, Nearest, AllEntries, CountBelow;
      var resultSet := new KnnResultSet(k, outIndices, outDists, index.sentinel);
      var full := index.FindNearest(q, resultSet, 0.0);
      if |index.data| > 0 {
        ghost var out := resultSet.Contents();
        index.SceneValid(q);
        NothingScaled(1.0 + 0.0);
        ExactKnn(index.data, index.metric.term, q, k, index.sentinel, out);
        ExactLength(index.data, index.metric.term, q, k, index.sentinel, out);
        assert out == Zip(outDists[..|out|], outIndices[..|out|]);
      }
    }
  }

  lemma ExactLength(data: Dataset, term: Axis, q: Point, k: nat, sentinel: real, out: seq<Entry>)
    requires forall i :: 0 <= i < |data| ==> |data[i]| == |q|
    requires ExactKnnAnswer(data, term, q, k, sentinel, out)
    ensures |out| == Min(k, CountBelow(AllEntries(data, term, q), sentinel))
  {
  }
}

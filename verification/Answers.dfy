/** Pruned search against brute force: what a whole-tree visit implies for the answers. */
module Answers {
  import opened Metrics
  import opened PointSets
  import opened Entries
  import opened ResultSets
  import opened SearchTree
  import opened Accuracies

  /** Every point with its distance: the brute-force candidates, in dataset order. */
  ghost function AllEntries(data: Dataset, term: Axis, q: Point): (all: seq<Entry>)
    requires forall i :: 0 <= i < |data| ==> |data[i]| == |q|
    ensures |all| == |data|
    ensures forall i :: 0 <= i < |data| ==> all[i] == Entry(Dist(term, q, data[i]), i)
  {
    seq(|data|, i requires 0 <= i < |data| && |data[i]| == |q| => Entry(Dist(term, q, data[i]), i))
  }

  // ---------- Permutations ----------

  function Identity(n: nat): (v: seq<nat>)
    ensures |v| == n && forall k :: 0 <= k < n ==> v[k] == k
  {
    seq(n, k => k)
  }

  /** v lists each of 0 .. n - 1 exactly once. */
  ghost predicate Permutation(v: seq<nat>, n: nat) {
    && |v| == n
    && (forall k :: 0 <= k < n ==> v[k] < n)
    && (forall j, k :: 0 <= j < k < n ==> v[j] != v[k])
    && (forall i :: 0 <= i < n ==> i in v)
  }

  lemma IdentityMultiplicity(n: nat, x: nat)
    ensures multiset(Identity(n))[x] == if x < n then 1 else 0
  {
    var v := Identity(n);
    if x < n {
      assert v == v[..x] + [x] + v[x + 1..];
      assert x !in v[..x] && x !in v[x + 1..];
    } else {
      assert x !in v;
    }
  }

  lemma OneOccurrence<T>(v: seq<T>, j: nat, k: nat)
    requires j < k < |v| && multiset(v)[v[j]] == 1
    ensures v[j] != v[k]
  {
    assert v == v[..k] + v[k..];
    assert v[j] in v[..k];
    assert v[k] in v[k..];
    assert multiset(v)[v[j]] == multiset(v[..k])[v[j]] + multiset(v[k..])[v[j]];
  }

  lemma RearrangedIdentity(v: seq<nat>, n: nat)
    requires |v| == n && multiset(Identity(n)) == multiset(v)
    ensures Permutation(v, n)
  {
    forall k | 0 <= k < n
      ensures v[k] < n
    {
      IdentityMultiplicity(n, v[k]);
      assert v[k] in multiset(v);
    }
    forall j, k | 0 <= j < k < n
      ensures v[j] != v[k]
    {
      IdentityMultiplicity(n, v[j]);
      OneOccurrence(v, j, k);
    }
    forall i | 0 <= i < n
      ensures i in v
    {
      IdentityMultiplicity(n, i);
      assert i in multiset(v);
    }
  }

  // ---------- Offered entries and brute-force candidates ----------

  lemma PicksAreCandidates(s: Scene, picks: seq<nat>)
    requires s.Valid() && Permutation(s.v, |s.data|) && Inside(picks, 0, |s.v|) && Distinct(picks)
    ensures var all := AllEntries(s.data, s.term, s.q);
            NoDuplicates(all) && NoDuplicates(EntriesOf(s, picks))
            && (forall e :: e in EntriesOf(s, picks) ==> e in all)
            && (forall i, j :: 0 <= i < j < |picks| ==> EntriesOf(s, picks)[i].index != EntriesOf(s, picks)[j].index)
  {
  }

  /** What the pruned search leaves of the candidates: no more than it was given, nothing twice,
      and whatever is missing is too far away even for the accuracy asked for. */
  ghost predicate Screened(all: seq<Entry>, after: seq<Entry>, acc: Accuracy, worst: real) {
    && NoDuplicates(all) && NoDuplicates(after)
    && (forall e :: e in after ==> e in all)
    && (forall e :: e in all ==> e.dist >= 0.0)
    && (forall e :: e in all && e !in after ==> acc.up(e.dist) >= worst)
  }

  lemma VisitScreens(s: Scene, p: Policy, acc: Accuracy, after: seq<Entry>, picks: seq<nat>)
    requires s.Valid() && p.Usable() && Permutation(s.v, |s.data|)
    requires Visited(s, p, acc, 0, |s.v|, [], after, picks)
    ensures Screened(AllEntries(s.data, s.term, s.q), after, acc, p.WorstAfter(after))
    ensures IndicesDistinct(after)
  {
    var all := AllEntries(s.data, s.term, s.q);
    assert after == EntriesOf(s, picks);
    PicksAreCandidates(s, picks);
    forall e | e in all
      ensures e.dist >= 0.0
    {
      PartialMonotone(s.term, s.q, s.data[e.index], 0, s.dim);
    }
    forall e | e in all && e !in after
      ensures acc.up(e.dist) >= p.WorstAfter(after)
    {
      assert e.index in s.v;
      var k :| 0 <= k < |s.v| && s.v[k] == e.index;
      assert s.EntryAt(k) == e;
      forall i | 0 <= i < |picks|
        ensures picks[i] != k
      {
        assert after[i] == s.EntryAt(picks[i]);
      }
    }
  }

  /** Every candidate whose scaled distance is below a bound that is at most the final one was
      offered, and lies below that bound itself. */
  lemma NearOnesOffered(all: seq<Entry>, after: seq<Entry>, acc: Accuracy, worst: real, t: real)
    requires Screened(all, after, acc, worst) && acc.Lawful() && t <= worst
    ensures forall e :: e in all && acc.up(e.dist) < t ==> e in after && e.dist < t
  {
  }

  lemma NearOnesCounted(all: seq<Entry>, after: seq<Entry>, acc: Accuracy, worst: real, t: real)
    requires Screened(all, after, acc, worst) && acc.Lawful() && t <= worst
    ensures CountBelow(all, acc.down(t)) <= CountBelow(after, t)
  {
    NearOnesOffered(all, after, acc, worst, t);
    CountInjection(all, acc.down(t), after, t);
  }

  // ---------- k nearest neighbours ----------

  ghost predicate IndicesDistinct(s: seq<Entry>) {
    forall i, j :: 0 <= i < j < |s| ==> s[i].index != s[j].index
  }

  /** The answer of a k-nearest query with a given accuracy:
      valid, distinct, ascending; the i-th distance lies between the true i-th smallest one and
      that one scaled by 1 + eps; and its length is fixed by how many points lie below the sentinel. */
  ghost predicate KnnAnswer(data: Dataset, term: Axis, q: Point, k: nat, sentinel: real, acc: Accuracy, out: seq<Entry>)
    requires forall i :: 0 <= i < |data| ==> |data[i]| == |q|
  {
    var all := AllEntries(data, term, q);
    && |out| <= |all|
    && Ascending(out)
    && (forall e :: e in out ==> e in all && e.dist < sentinel)
    && IndicesDistinct(out)
    && (forall i :: 0 <= i < |out| ==>
          StableSort(all)[i].dist <= out[i].dist <= acc.up(StableSort(all)[i].dist))
    && Min(k, CountBelow(all, acc.down(sentinel))) <= |out| <= Min(k, CountBelow(all, sentinel))
    && (forall e :: e in all && e !in out ==>
          acc.up(e.dist) >= sentinel || (|out| == k && forall x :: x in out ==> x.dist <= acc.up(e.dist)))
  }

  lemma BehindPrefix<T>(s: seq<T>, m: nat, x: T) returns (j: nat)
    requires m <= |s| && x in s && x !in s[..m]
    ensures m <= j < |s| && s[j] == x
  {
    assert s == s[..m] + s[m..];
    var i :| 0 <= i < |s[m..]| && s[m..][i] == x;
    j := m + i;
  }

  lemma AnswersOffered(after: seq<Entry>, k: nat)
    ensures forall e :: e in Nearest(after, k) ==> e in after
  {
    SortedMembers(after);
  }

  /** A candidate that was not offered, or fell off again, is out of reach of the answers. */
  lemma LeftOut(all: seq<Entry>, after: seq<Entry>, k: nat, sentinel: real, acc: Accuracy, e: Entry)
    requires k > 0 && acc.Lawful() && AllBelow(after, sentinel)
    requires Screened(all, after, acc, WorstOf(after, k, sentinel))
    requires e in all && e !in Nearest(after, k)
    ensures || acc.up(e.dist) >= sentinel
            || (|after| >= k && forall x :: x in Nearest(after, k) ==> x.dist <= acc.up(e.dist))
  {
    hide StableSort;
    var sorted := StableSort(after);
    SortedMembers(after);
    StableSortMeaning(after);
    if e in after {
      var j := BehindPrefix(sorted, Min(k, |after|), e);
      AtLeast(acc, e.dist, e.dist);
    }
  }

  lemma OfferedCount(all: seq<Entry>, after: seq<Entry>, k: nat, sentinel: real, acc: Accuracy)
    requires k > 0 && acc.Lawful() && AllBelow(after, sentinel)
    requires Screened(all, after, acc, WorstOf(after, k, sentinel))
    ensures |after| <= CountBelow(all, sentinel)
    ensures Min(k, CountBelow(all, acc.down(sentinel))) <= |after|
  {
    CountAllOrNone(after, sentinel);
    CountInjection(after, sentinel, all, sentinel);
    if |after| < k {
      NearOnesCounted(all, after, acc, sentinel, sentinel);
    }
  }

  /** The final bound is no nearer than any answer. */
  lemma BoundAboveAnswers(after: seq<Entry>, k: nat, sentinel: real, i: nat)
    requires k > 0 && AllBelow(after, sentinel) && i < Min(k, |after|)
    ensures StableSort(after)[i].dist <= WorstOf(after, k, sentinel)
  {
    StableSortMeaning(after);
    assert StableSort(after)[i] in multiset(after);
  }

  /** The i-th answer is no nearer than the i-th smallest candidate... */
  lemma RankAtLeast(all: seq<Entry>, after: seq<Entry>, acc: Accuracy, worst: real, i: nat)
    requires Screened(all, after, acc, worst) && i < |after| <= |all|
    ensures StableSort(all)[i].dist <= StableSort(after)[i].dist
  {
    var best := StableSort(all)[i].dist;
    RankByCount(all, i, best);
    CountInjection(after, best, all, best);
    RankByCount(after, i, best);
  }

  /** ... and no farther than that one scaled. */
  lemma RankAtMost(all: seq<Entry>, after: seq<Entry>, acc: Accuracy, worst: real, i: nat)
    requires Screened(all, after, acc, worst) && i < |after| <= |all| && acc.Lawful()
    requires StableSort(after)[i].dist <= worst
    ensures StableSort(after)[i].dist <= acc.up(StableSort(all)[i].dist)
  {
    RankAtLeastScaled(all, after, acc, worst, i);
  }

  lemma RankAtLeastScaled(all: seq<Entry>, after: seq<Entry>, acc: Accuracy, worst: real, i: nat)
    requires Screened(all, after, acc, worst) && i < |after| <= |all| && acc.Lawful()
    requires StableSort(after)[i].dist <= worst
    ensures StableSort(all)[i].dist >= acc.down(StableSort(after)[i].dist)
  {
    var t := StableSort(after)[i].dist;
    var scaled := acc.down(t);
    NearOnesCounted(all, after, acc, worst, t);
    RankByCount(after, i, t);
    RankByCount(all, i, scaled);
  }

  /** The two bounds for every answer. */
  lemma AnswersRanked(all: seq<Entry>, after: seq<Entry>, k: nat, sentinel: real, acc: Accuracy)
    requires k > 0 && acc.Lawful() && AllBelow(after, sentinel) && |after| <= |all|
    requires Screened(all, after, acc, WorstOf(after, k, sentinel))
    ensures forall i :: 0 <= i < Min(k, |after|) ==>
              StableSort(all)[i].dist <= Nearest(after, k)[i].dist <= acc.up(StableSort(all)[i].dist)
  {
    forall i | 0 <= i < Min(k, |after|)
      ensures StableSort(all)[i].dist <= Nearest(after, k)[i].dist <= acc.up(StableSort(all)[i].dist)
    {
      BoundAboveAnswers(after, k, sentinel, i);
      RankAtLeast(all, after, acc, WorstOf(after, k, sentinel), i);
      RankAtMost(all, after, acc, WorstOf(after, k, sentinel), i);
    }
  }

  lemma InsertIndicesDistinct(s: seq<Entry>, e: Entry)
    requires IndicesDistinct(s) && forall x :: x in s ==> x.index != e.index
    ensures IndicesDistinct(Insert(s, e))
  {
  }

  lemma {:induction false} SortedIndicesDistinct(o: seq<Entry>)
    requires IndicesDistinct(o)
    ensures IndicesDistinct(StableSort(o))
  {
    if |o| > 0 {
      var init, e := o[..|o| - 1], o[|o| - 1];
      SortedIndicesDistinct(init);
      SortedMembers(init);
      InsertIndicesDistinct(StableSort(init), e);
    }
  }

  /** Approximate and exact k-nearest search agree with brute force as KnnAnswer says. */
  lemma KnnFromVisit(s: Scene, p: Policy, acc: Accuracy, after: seq<Entry>, picks: seq<nat>)
    requires s.Valid() && p.Usable() && p.NearestK? && acc.Lawful() && Permutation(s.v, |s.data|)
    requires Visited(s, p, acc, 0, |s.v|, [], after, picks)
    ensures KnnAnswer(s.data, s.term, s.q, p.capacity, p.sentinel, acc, Nearest(after, p.capacity))
  {
    VisitScreens(s, p, acc, after, picks);
    KnnFromScreen(s.data, s.term, s.q, p.capacity, p.sentinel, acc, after);
  }

  lemma KnnFromScreen(data: Dataset, term: Axis, q: Point, k: nat, sentinel: real, acc: Accuracy, after: seq<Entry>)
    requires forall i :: 0 <= i < |data| ==> |data[i]| == |q|
    requires k > 0 && acc.Lawful() && AllBelow(after, sentinel) && IndicesDistinct(after)
    requires Screened(AllEntries(data, term, q), after, acc, WorstOf(after, k, sentinel))
    ensures KnnAnswer(data, term, q, k, sentinel, acc, Nearest(after, k))
  {
    hide StableSort, CountBelow, Nearest, Ascending, IndicesDistinct, Screened, AllBelow, AllEntries;
    var all := AllEntries(data, term, q);
    OfferedCount(all, after, k, sentinel, acc);
    NearestAscending(after, k);
    NearestIndicesDistinct(after, k);
    AnswersRanked(all, after, k, sentinel, acc);
    AnswersOut(all, after, k, sentinel, acc);
  }

  lemma NearestIndicesDistinct(after: seq<Entry>, k: nat)
    requires IndicesDistinct(after)
    ensures IndicesDistinct(Nearest(after, k))
  {
    SortedIndicesDistinct(after);
  }

  lemma AnswersOut(all: seq<Entry>, after: seq<Entry>, k: nat, sentinel: real, acc: Accuracy)
    requires k > 0 && acc.Lawful() && AllBelow(after, sentinel)
    requires Screened(all, after, acc, WorstOf(after, k, sentinel))
    ensures var out := Nearest(after, k);
            && (forall e :: e in out ==> e in all && e.dist < sentinel)
            && (forall e :: e in all && e !in out ==>
                  acc.up(e.dist) >= sentinel || (|out| == k && forall x :: x in out ==> x.dist <= acc.up(e.dist)))
  {
    var out := Nearest(after, k);
    AnswersOffered(after, k);
    forall e | e in all && e !in out
      ensures acc.up(e.dist) >= sentinel || (|out| == k && forall x :: x in out ==> x.dist <= acc.up(e.dist))
    {
      LeftOut(all, after, k, sentinel, acc, e);
    }
  }

  /** The answer of an exact k-nearest query: valid, distinct, ascending, and its distances are
      the first ones of the brute-force list. Every point below the sentinel counts, so with all
      distances below it there are min(k, n) answers. */
  ghost predicate ExactKnnAnswer(data: Dataset, term: Axis, q: Point, k: nat, sentinel: real, out: seq<Entry>)
    requires forall i :: 0 <= i < |data| ==> |data[i]| == |q|
  {
    var all := AllEntries(data, term, q);
    && |out| == Min(k, CountBelow(all, sentinel))
    && (AllBelow(all, sentinel) ==> |out| == Min(k, |data|))
    && (forall i :: 0 <= i < |out| ==> out[i].dist == StableSort(all)[i].dist)
    && Ascending(out)
    && (forall e :: e in out ==> e in all && e.dist < sentinel)
    && (forall e :: e in all && e !in out ==>
          e.dist >= sentinel || (|out| == k && forall x :: x in out ==> x.dist <= e.dist))
    && IndicesDistinct(out)
  }

  lemma ExactKnn(data: Dataset, term: Axis, q: Point, k: nat, sentinel: real, out: seq<Entry>)
    requires forall i :: 0 <= i < |data| ==> |data[i]| == |q|
    requires KnnAnswer(data, term, q, k, sentinel, Times(1.0), out)
    ensures ExactKnnAnswer(data, term, q, k, sentinel, out)
  {
    ExactTimes(sentinel);
    CountAllOrNone(AllEntries(data, term, q), sentinel);
    forall e: Entry
      ensures Times(1.0).up(e.dist) == e.dist
    {
      ExactTimes(e.dist);
    }
  }

  /** An answer, point by point: every entry is a point below the sentinel with its distance,
      nearer ones first and none twice, ... */
  lemma AnsweredPoints(data: Dataset, term: Axis, q: Point, k: nat, sentinel: real, acc: Accuracy, out: seq<Entry>)
    requires forall i :: 0 <= i < |data| ==> |data[i]| == |q|
    requires KnnAnswer(data, term, q, k, sentinel, acc, out)
    ensures forall i :: 0 <= i < |out| ==>
              out[i].index < |data| && out[i].dist == Dist(term, q, data[out[i].index]) && out[i].dist < sentinel
    ensures forall i, j :: 0 <= i < j < |out| ==> out[i].dist <= out[j].dist && out[i].index != out[j].index
  {
    hide StableSort, CountBelow;
    var all := AllEntries(data, term, q);
    forall i | 0 <= i < |out|
      ensures out[i] in all && out[i].dist < sentinel
    {
    }
  }

  /** ... and no point that is left out is nearer, even scaled, than any of them, or below the
      sentinel while there was room. */
  lemma NoneNearer(data: Dataset, term: Axis, q: Point, k: nat, sentinel: real, acc: Accuracy, out: seq<Entry>)
    requires forall i :: 0 <= i < |data| ==> |data[i]| == |q|
    requires KnnAnswer(data, term, q, k, sentinel, acc, out)
    ensures forall p :: 0 <= p < |data| && (forall i :: 0 <= i < |out| ==> out[i].index != p) ==>
              || acc.up(Dist(term, q, data[p])) >= sentinel
              || (|out| == k && forall i :: 0 <= i < k ==> out[i].dist <= acc.up(Dist(term, q, data[p])))
  {
    hide StableSort, CountBelow;
    var all := AllEntries(data, term, q);
    forall p | 0 <= p < |data| && (forall i :: 0 <= i < |out| ==> out[i].index != p)
      ensures || acc.up(Dist(term, q, data[p])) >= sentinel
              || (|out| == k && forall i :: 0 <= i < k ==> out[i].dist <= acc.up(Dist(term, q, data[p])))
    {
      assert all[p] in all && all[p] !in out;
    }
  }

  /** The indices of an exact answer, too, are those of the sorted brute-force list, whatever the
      tree looked like, at every rank whose distance is not shared with another candidate. */
  lemma ExactIndices(data: Dataset, term: Axis, q: Point, k: nat, sentinel: real, out: seq<Entry>)
    requires forall i :: 0 <= i < |data| ==> |data[i]| == |q|
    requires ExactKnnAnswer(data, term, q, k, sentinel, out)
    ensures var sorted := StableSort(AllEntries(data, term, q));
            && |out| <= |sorted|
            && forall i ::
                 && 0 <= i < |out|
                 && (forall j :: 0 <= j < |sorted| && j != i ==> sorted[j].dist != sorted[i].dist) ==>
                 out[i] == sorted[i]
  {
    hide StableSort;
    var all := AllEntries(data, term, q);
    var sorted := StableSort(all);
    SortedMembers(all);
    forall i | 0 <= i < |out| && (forall j :: 0 <= j < |sorted| && j != i ==> sorted[j].dist != sorted[i].dist)
      ensures out[i] == sorted[i]
    {
      assert out[i] in all;
      assert out[i] in sorted;
      var j :| 0 <= j < |sorted| && sorted[j] == out[i];
      assert j == i;
    }
  }

  // ---------- Radius search ----------

  /** A radius answer, point by point: every entry is a point inside the radius with its distance,
      none twice, and every point that is inside even when its distance is scaled is there. */
  lemma RadiusPoints(data: Dataset, term: Axis, q: Point, radius: real, acc: Accuracy, items: seq<Entry>)
    requires forall i :: 0 <= i < |data| ==> |data[i]| == |q|
    requires RadiusAnswer(data, term, q, radius, acc, items)
    ensures forall e :: e in items ==>
              e.index < |data| && e.dist == Dist(term, q, data[e.index]) < radius
    ensures forall i, j :: 0 <= i < j < |items| ==> items[i].index != items[j].index
    ensures forall p :: 0 <= p < |data| && acc.up(Dist(term, q, data[p])) < radius ==>
              Entry(Dist(term, q, data[p]), p) in items
  {
    var all := AllEntries(data, term, q);
    forall i, j | 0 <= i < j < |items|
      ensures items[i].index != items[j].index
    {
      assert items[i] in all && items[j] in all;
    }
    forall p | 0 <= p < |data| && acc.up(Dist(term, q, data[p])) < radius
      ensures Entry(Dist(term, q, data[p]), p) in items
    {
      assert all[p] in all;
    }
  }

  /** An ordered answer of distinct points: nearest first, and by index where distances tie. */
  lemma OrderedPoints(items: seq<Entry>)
    requires InOrder(items) && forall i, j :: 0 <= i < j < |items| ==> items[i].index != items[j].index
    ensures forall i, j :: 0 <= i < j < |items| ==>
              || items[i].dist < items[j].dist
              || (items[i].dist == items[j].dist && items[i].index < items[j].index)
  {
    forall i, j | 0 <= i < j < |items|
      ensures || items[i].dist < items[j].dist
              || (items[i].dist == items[j].dist && items[i].index < items[j].index)
    {
      assert !Before(items[j], items[i]);
    }
  }

  /** The answer of a radius query: no entry twice, all of them candidates inside the radius,
      and every candidate whose scaled distance lies inside it. */
  ghost predicate RadiusAnswer(data: Dataset, term: Axis, q: Point, radius: real, acc: Accuracy, items: seq<Entry>)
    requires forall i :: 0 <= i < |data| ==> |data[i]| == |q|
  {
    var all := AllEntries(data, term, q);
    && NoDuplicates(items)
    && (forall e :: e in items ==> e in all && e.dist < radius)
    && (forall e :: e in all && acc.up(e.dist) < radius ==> e in items)
  }

  lemma RadiusFromVisit(s: Scene, p: Policy, acc: Accuracy, after: seq<Entry>, picks: seq<nat>)
    requires s.Valid() && p.WithinRadius? && acc.Lawful() && Permutation(s.v, |s.data|)
    requires Visited(s, p, acc, 0, |s.v|, [], after, picks)
    ensures RadiusAnswer(s.data, s.term, s.q, p.radius, acc, Within(after, p.radius))
  {
    VisitScreens(s, p, acc, after, picks);
    WithinMeaning(after, p.radius);
    NearOnesOffered(AllEntries(s.data, s.term, s.q), after, acc, p.radius, p.radius);
  }

  /** Sorting an answer leaves it an answer. */
  lemma SortKeepsRadiusAnswer(data: Dataset, term: Axis, q: Point, radius: real, acc: Accuracy, items: seq<Entry>)
    requires forall i :: 0 <= i < |data| ==> |data[i]| == |q|
    requires RadiusAnswer(data, term, q, radius, acc, items)
    ensures RadiusAnswer(data, term, q, radius, acc, SortInOrder(items))
    ensures |SortInOrder(items)| == |items|
  {
    var sorted := SortInOrder(items);
    SortInOrderMeaning(items);
    assert |multiset(sorted)| == |multiset(items)|;
    NoDuplicatesMultiplicity(items);
    forall e
      ensures e in sorted <==> e in items
    {
      assert e in sorted <==> e in multiset(sorted);
      assert e in items <==> e in multiset(items);
    }
    forall i, j | 0 <= i < j < |sorted|
      ensures sorted[i] != sorted[j]
    {
      OneOccurrence(sorted, i, j);
    }
  }

  /** Exact radius search, sorted: one list, whatever the tree looked like. */
  lemma ExactRadius(data: Dataset, term: Axis, q: Point, radius: real, items: seq<Entry>)
    requires forall i :: 0 <= i < |data| ==> |data[i]| == |q|
    requires RadiusAnswer(data, term, q, radius, Times(1.0), items)
    ensures SortInOrder(items) == SortInOrder(Within(AllEntries(data, term, q), radius))
    ensures |items| == CountBelow(AllEntries(data, term, q), radius)
  {
    var all := AllEntries(data, term, q);
    WithinMeaning(all, radius);
    forall e | e in all && e.dist < radius
      ensures e in items
    {
      ExactTimes(e.dist);
    }
    SortDependsOnEntries(items, Within(all, radius));
    CountInjection(items, radius, all, radius);
    CountInjection(all, radius, items, radius);
    CountAllOrNone(items, radius);
  }
}

/** Lists of (distance, index) answers: the stable sort that a bounded result set keeps a
    prefix of, the (distance, index) order of the radius search, and counting below a bound. */
module Entries {

  datatype Entry = Entry(dist: real, index: nat)

  function Min(a: nat, b: nat): nat {
    if a <= b then a else b
  }

  // ---------- Sorted by distance, ties in order of arrival ----------

  ghost predicate Ascending(s: seq<Entry>) {
    forall i, j :: 0 <= i <= j < |s| ==> s[i].dist <= s[j].dist
  }

  /** Where a new entry goes: behind every entry that is not farther away. */
  function Slot(s: seq<Entry>, dist: real): (p: nat)
    ensures p <= |s|
    ensures forall i :: p <= i < |s| ==> s[i].dist > dist
    ensures p > 0 ==> s[p - 1].dist <= dist
  {
    if |s| > 0 && s[|s| - 1].dist > dist then Slot(s[..|s| - 1], dist) else |s|
  }

  /** Slot is the only position with its two properties. */
  lemma SlotUnique(s: seq<Entry>, dist: real, p: nat)
    requires p <= |s| && Ascending(s)
    requires forall i :: p <= i < |s| ==> s[i].dist > dist
    requires p > 0 ==> s[p - 1].dist <= dist
    ensures p == Slot(s, dist)
  {
  }

  function Insert(s: seq<Entry>, e: Entry): seq<Entry> {
    var p := Slot(s, e.dist);
    s[..p] + [e] + s[p..]
  }

  function StableSort(offered: seq<Entry>): (s: seq<Entry>)
    ensures |s| == |offered|
  {
    if |offered| == 0 then [] else Insert(StableSort(offered[..|offered| - 1]), offered[|offered| - 1])
  }

  /** The entries at exactly this distance, in order. */
  function Ties(s: seq<Entry>, dist: real): seq<Entry> {
    if |s| == 0 then []
    else if s[|s| - 1].dist == dist then Ties(s[..|s| - 1], dist) + [s[|s| - 1]]
    else Ties(s[..|s| - 1], dist)
  }

  lemma {:induction false} TiesConcat(a: seq<Entry>, b: seq<Entry>, dist: real)
    ensures Ties(a + b, dist) == Ties(a, dist) + Ties(b, dist)
  {
    if |b| == 0 {
      assert a + b == a;
    } else {
      assert (a + b)[..|a + b| - 1] == a + b[..|b| - 1];
      TiesConcat(a, b[..|b| - 1], dist);
    }
  }

  lemma {:induction false} NoTies(s: seq<Entry>, dist: real)
    requires forall i :: 0 <= i < |s| ==> s[i].dist > dist
    ensures Ties(s, dist) == []
  {
    if |s| > 0 {
      NoTies(s[..|s| - 1], dist);
    }
  }

  lemma InsertAscending(s: seq<Entry>, e: Entry)
    requires Ascending(s)
    ensures Ascending(Insert(s, e))
  {
  }

  lemma InsertMultiset(s: seq<Entry>, e: Entry)
    ensures multiset(Insert(s, e)) == multiset(s) + multiset{e}
  {
    var p := Slot(s, e.dist);
    assert s == s[..p] + s[p..];
  }

  lemma SwapWithEmpty<T>(x: seq<T>, y: seq<T>, z: seq<T>)
    requires y == [] || z == []
    ensures x + y + z == x + z + y
  {
  }

  lemma TiesSwap(a: seq<Entry>, e: Entry, b: seq<Entry>, dist: real)
    requires forall i :: 0 <= i < |b| ==> b[i].dist > e.dist
    ensures Ties(a + [e] + b, dist) == Ties(a + b, dist) + Ties([e], dist)
  {
    var single := [e];
    TiesConcat(a + single, b, dist);
    TiesConcat(a, single, dist);
    TiesConcat(a, b, dist);
    if dist == e.dist {
      NoTies(b, dist);
    } else {
      assert Ties(single, dist) == Ties(single[..0], dist);
    }
    SwapWithEmpty(Ties(a, dist), Ties(single, dist), Ties(b, dist));
  }

  lemma InsertTies(s: seq<Entry>, e: Entry, dist: real)
    ensures Ties(Insert(s, e), dist) == Ties(s, dist) + Ties([e], dist)
  {
    var p := Slot(s, e.dist);
    assert s == s[..p] + s[p..];
    TiesSwap(s[..p], e, s[p..], dist);
  }

  /** StableSort is the stable sort by distance: an ascending rearrangement of what was
      offered in which entries at the same distance keep the order in which they came. */
  lemma {:induction false} StableSortMeaning(o: seq<Entry>)
    ensures Ascending(StableSort(o))
    ensures multiset(StableSort(o)) == multiset(o)
    ensures forall dist :: Ties(StableSort(o), dist) == Ties(o, dist)
  {
    if |o| > 0 {
      var init, e := o[..|o| - 1], o[|o| - 1];
      assert o == init + [e];
      var s := StableSort(init);
      StableSortMeaning(init);
      InsertAscending(s, e);
      InsertMultiset(s, e);
      forall dist
        ensures Ties(StableSort(o), dist) == Ties(o, dist)
      {
        InsertTies(s, e, dist);
        TiesConcat(init, [e], dist);
      }
    }
  }

  lemma SortStep(o: seq<Entry>, e: Entry)
    ensures StableSort(o + [e]) == Insert(StableSort(o), e)
  {
  }

  lemma SortedMembers(o: seq<Entry>)
    ensures forall e :: e in StableSort(o) <==> e in o
  {
    StableSortMeaning(o);
    forall e
      ensures e in StableSort(o) <==> e in o
    {
      assert e in StableSort(o) <==> e in multiset(StableSort(o));
      assert e in o <==> e in multiset(o);
    }
  }

  // ---------- The k nearest of what was offered ----------

  function Nearest(offered: seq<Entry>, k: nat): (s: seq<Entry>)
    ensures |s| == Min(k, |offered|)
  {
    StableSort(offered)[..Min(k, |offered|)]
  }

  lemma NearestAscending(offered: seq<Entry>, k: nat)
    ensures Ascending(Nearest(offered, k))
  {
    StableSortMeaning(offered);
  }

  lemma SlotOfPrefix(s: seq<Entry>, dist: real, m: nat)
    requires Ascending(s) && m <= |s|
    ensures Slot(s[..m], dist) == Min(Slot(s, dist), m)
  {
    var p := Slot(s, dist);
    if m < p {
      assert s[m - 1 + 1].dist <= s[p - 1].dist;
    }
    SlotUnique(s[..m], dist, Min(p, m));
  }

  lemma TruncateInsert(s: seq<Entry>, e: Entry, p: nat, m: nat, n: nat)
    requires p <= |s| && m <= |s| && n <= m + 1 && (m < p ==> n <= m)
    ensures (s[..p] + [e] + s[p..])[..n] == (s[..Min(p, m)] + [e] + s[..m][Min(p, m)..])[..n]
  {
  }

  /** Inserting into the truncated list and truncating again loses nothing. */
  lemma NearestStep(o: seq<Entry>, e: Entry, k: nat)
    ensures Nearest(o + [e], k) == Insert(Nearest(o, k), e)[..Min(k, |o| + 1)]
  {
    SortStep(o, e);
    StableSortMeaning(o);
    NearestStepSorted(StableSort(o), e, Min(k, |o|), Min(k, |o| + 1));
  }

  lemma NearestStepSorted(s: seq<Entry>, e: Entry, m: nat, n: nat)
    requires Ascending(s) && m <= |s| && m <= n <= m + 1 && (n == m || m == |s|)
    ensures Insert(s, e)[..n] == Insert(s[..m], e)[..n]
  {
    var p := Slot(s, e.dist);
    SlotOfPrefix(s, e.dist, m);
    TruncateInsert(s, e, p, m, n);
    assert s[..m][..Min(p, m)] == s[..Min(p, m)];
  }

  /** The bound that a k-nearest result set reports: the sentinel until it is full. */
  function WorstOf(offered: seq<Entry>, k: nat, sentinel: real): real
    requires k > 0
  {
    if |offered| < k then sentinel else StableSort(offered)[k - 1].dist
  }

  /** A full result set ignores an entry if and only if it is not nearer than its bound. */
  lemma IgnoredIffNotNearer(o: seq<Entry>, e: Entry, k: nat, sentinel: real)
    requires 0 < k <= |o|
    ensures Nearest(o + [e], k) == Nearest(o, k) <==> e.dist >= WorstOf(o, k, sentinel)
  {
    NearestStep(o, e, k);
    NearestAscending(o, k);
    var s := Nearest(o, k);
    assert s[k - 1] == StableSort(o)[k - 1];
    if e.dist >= s[k - 1].dist {
      SlotUnique(s, e.dist, k);
    } else {
      var p := Slot(s, e.dist);
      assert Insert(s, e)[..k][p] == e;
    }
  }

  /** The bound never rises while everything offered lies below the sentinel. */
  lemma WorstFalls(o: seq<Entry>, e: Entry, k: nat, sentinel: real)
    requires k > 0
    requires forall i :: 0 <= i < |o| ==> o[i].dist < sentinel
    requires e.dist < sentinel
    ensures WorstOf(o + [e], k, sentinel) <= WorstOf(o, k, sentinel)
  {
    SortStep(o, e);
    StableSortMeaning(o);
    if |o| + 1 == k {
      SortedMembers(o + [e]);
      assert StableSort(o + [e])[k - 1] in o + [e];
    } else if k <= |o| {
      InsertLowers(StableSort(o), e, k - 1);
    }
  }

  lemma InsertLowers(s: seq<Entry>, e: Entry, i: nat)
    requires Ascending(s) && i < |s|
    ensures Insert(s, e)[i].dist <= s[i].dist
  {
  }

  // ---------- Counting below a bound ----------

  function CountBelow(s: seq<Entry>, bound: real): (c: nat)
    ensures c <= |s|
  {
    if |s| == 0 then 0
    else CountBelow(s[..|s| - 1], bound) + if s[|s| - 1].dist < bound then 1 else 0
  }

  lemma {:induction false} CountConcat(a: seq<Entry>, b: seq<Entry>, bound: real)
    ensures CountBelow(a + b, bound) == CountBelow(a, bound) + CountBelow(b, bound)
  {
    if |b| == 0 {
      assert a + b == a;
    } else {
      assert (a + b)[..|a + b| - 1] == a + b[..|b| - 1];
      CountConcat(a, b[..|b| - 1], bound);
    }
  }

  lemma CountMiddle(a: seq<Entry>, e: Entry, b: seq<Entry>, bound: real)
    ensures CountBelow(a + [e] + b, bound) == CountBelow(a + b, bound) + if e.dist < bound then 1 else 0
  {
    var single := [e];
    CountConcat(a + single, b, bound);
    CountConcat(a, single, bound);
    CountConcat(a, b, bound);
    assert CountBelow(single[..0], bound) == 0;
  }

  lemma InsertCount(s: seq<Entry>, e: Entry, bound: real)
    ensures CountBelow(Insert(s, e), bound) == CountBelow(s, bound) + if e.dist < bound then 1 else 0
  {
    var p := Slot(s, e.dist);
    CountMiddle(s[..p], e, s[p..], bound);
    assert s == s[..p] + s[p..];
  }

  lemma {:induction false} CountSorted(o: seq<Entry>, bound: real)
    ensures CountBelow(StableSort(o), bound) == CountBelow(o, bound)
  {
    if |o| > 0 {
      CountSorted(o[..|o| - 1], bound);
      InsertCount(StableSort(o[..|o| - 1]), o[|o| - 1], bound);
    }
  }

  lemma {:induction false} CountAllOrNone(s: seq<Entry>, bound: real)
    ensures (forall i :: 0 <= i < |s| ==> s[i].dist < bound) ==> CountBelow(s, bound) == |s|
    ensures (forall i :: 0 <= i < |s| ==> s[i].dist >= bound) ==> CountBelow(s, bound) == 0
  {
    if |s| > 0 {
      CountAllOrNone(s[..|s| - 1], bound);
    }
  }

  lemma CountSplit(s: seq<Entry>, i: nat, bound: real)
    requires i <= |s|
    ensures CountBelow(s, bound) == CountBelow(s[..i], bound) + CountBelow(s[i..], bound)
  {
    assert s == s[..i] + s[i..];
    CountConcat(s[..i], s[i..], bound);
  }

  lemma RankInAscending(s: seq<Entry>, i: nat, bound: real)
    requires i < |s| && Ascending(s)
    ensures s[i].dist >= bound <==> CountBelow(s, bound) <= i
  {
    if s[i].dist >= bound {
      CountSplit(s, i, bound);
      CountAllOrNone(s[i..], bound);
    } else {
      CountSplit(s, i + 1, bound);
      CountAllOrNone(s[..i + 1], bound);
    }
  }

  /** Counting decides the i-th smallest distance. */
  lemma RankByCount(o: seq<Entry>, i: nat, bound: real)
    requires i < |o|
    ensures StableSort(o)[i].dist >= bound <==> CountBelow(o, bound) <= i
  {
    StableSortMeaning(o);
    CountSorted(o, bound);
    RankInAscending(StableSort(o), i, bound);
  }

  ghost predicate NoDuplicates(s: seq<Entry>) {
    forall i, j :: 0 <= i < j < |s| ==> s[i] != s[j]
  }

  ghost function Below(s: seq<Entry>, bound: real): set<Entry> {
    set e | e in s && e.dist < bound
  }

  lemma {:induction false} CountIsCardinality(s: seq<Entry>, bound: real)
    requires NoDuplicates(s)
    ensures CountBelow(s, bound) == |Below(s, bound)|
  {
    if |s| == 0 {
      assert Below(s, bound) == {};
    } else {
      var init, e := s[..|s| - 1], s[|s| - 1];
      CountIsCardinality(init, bound);
      assert s == init + [e];
      assert e !in init;
      assert Below(s, bound) == Below(init, bound) + if e.dist < bound then {e} else {};
    }
  }

  lemma SubsetCardinality<T>(a: set<T>, b: set<T>)
    requires a <= b
    ensures |a| <= |b|
  {
    assert b == a + (b - a);
  }

  /** If every entry of a below one bound is an entry of b below another, b has at least as many. */
  lemma CountInjection(a: seq<Entry>, boundA: real, b: seq<Entry>, boundB: real)
    requires NoDuplicates(a) && NoDuplicates(b)
    requires forall e :: e in a && e.dist < boundA ==> e in b && e.dist < boundB
    ensures CountBelow(a, boundA) <= CountBelow(b, boundB)
  {
    CountIsCardinality(a, boundA);
    CountIsCardinality(b, boundB);
    SubsetCardinality(Below(a, boundA), Below(b, boundB));
  }

  // ---------- Sorted by (distance, index), the order of IndexDist_Sorter ----------

  predicate Before(a: Entry, b: Entry) {
    if a.dist == b.dist then a.index < b.index else a.dist < b.dist
  }

  ghost predicate InOrder(s: seq<Entry>) {
    forall i, j :: 0 <= i < j < |s| ==> !Before(s[j], s[i])
  }

  function InsertInOrder(s: seq<Entry>, e: Entry): seq<Entry> {
    if |s| == 0 || !Before(e, s[|s| - 1]) then s + [e]
    else InsertInOrder(s[..|s| - 1], e) + [s[|s| - 1]]
  }

  /** std::sort with IndexDist_Sorter. */
  function SortInOrder(s: seq<Entry>): seq<Entry> {
    if |s| == 0 then [] else InsertInOrder(SortInOrder(s[..|s| - 1]), s[|s| - 1])
  }

  lemma GreatestLast(s: seq<Entry>, last: Entry)
    requires InOrder(s) && forall x :: x in s ==> !Before(last, x)
    ensures InOrder(s + [last])
  {
    hide Before;
  }

  lemma LastStaysGreatest(init: seq<Entry>, e: Entry, t: seq<Entry>, last: Entry)
    requires InOrder(init + [last]) && Before(e, last) && multiset(t) == multiset(init) + multiset{e}
    ensures forall x :: x in t ==> !Before(last, x)
  {
    forall x | x in t
      ensures !Before(last, x)
    {
      assert x in multiset(t);
      if x != e {
        assert x in multiset(init);
        var i :| 0 <= i < |init| && init[i] == x;
        assert (init + [last])[i] == x && (init + [last])[|init|] == last;
      }
    }
  }

  lemma {:induction false} InsertInOrderMeaning(s: seq<Entry>, e: Entry)
    requires InOrder(s)
    ensures InOrder(InsertInOrder(s, e))
    ensures multiset(InsertInOrder(s, e)) == multiset(s) + multiset{e}
  {
    if |s| == 0 || !Before(e, s[|s| - 1]) {
    } else {
      var init, last := s[..|s| - 1], s[|s| - 1];
      assert s == init + [last];
      InsertInOrderMeaning(init, e);
      var t := InsertInOrder(init, e);
      LastStaysGreatest(init, e, t, last);
      GreatestLast(t, last);
    }
  }

  lemma {:induction false} SortInOrderMeaning(s: seq<Entry>)
    ensures InOrder(SortInOrder(s)) && multiset(SortInOrder(s)) == multiset(s)
  {
    if |s| > 0 {
      SortInOrderMeaning(s[..|s| - 1]);
      InsertInOrderMeaning(SortInOrder(s[..|s| - 1]), s[|s| - 1]);
      assert s == s[..|s| - 1] + [s[|s| - 1]];
    }
  }

  lemma LastIsGreatest(s: seq<Entry>, e: Entry)
    requires InOrder(s) && e in multiset(s)
    ensures |s| > 0 && !Before(s[|s| - 1], e)
  {
  }

  lemma MultisetWithoutLast(s: seq<Entry>)
    requires |s| > 0
    ensures multiset(s[..|s| - 1]) == multiset(s) - multiset{s[|s| - 1]}
    ensures s[|s| - 1] in multiset(s)
  {
    assert s == s[..|s| - 1] + [s[|s| - 1]];
  }

  lemma SameLast(a: seq<Entry>, b: seq<Entry>)
    requires InOrder(a) && InOrder(b) && multiset(a) == multiset(b) && |a| > 0
    ensures |b| > 0 && a[|a| - 1] == b[|b| - 1]
    ensures multiset(a[..|a| - 1]) == multiset(b[..|b| - 1])
  {
    MultisetWithoutLast(a);
    LastIsGreatest(b, a[|a| - 1]);
    MultisetWithoutLast(b);
    LastIsGreatest(a, b[|b| - 1]);
  }

  /** There is only one ordered list of given contents. */
  lemma {:induction false} OrderedListUnique(a: seq<Entry>, b: seq<Entry>)
    requires InOrder(a) && InOrder(b) && multiset(a) == multiset(b)
    ensures a == b
  {
    if |a| == 0 {
      if |b| > 0 {
        MultisetWithoutLast(b);
      }
    } else {
      SameLast(a, b);
      OrderedListUnique(a[..|a| - 1], b[..|b| - 1]);
      assert a == a[..|a| - 1] + [a[|a| - 1]];
      assert b == b[..|b| - 1] + [b[|b| - 1]];
    }
  }

  // ---------- What a radius result set keeps ----------

  function Within(s: seq<Entry>, radius: real): seq<Entry> {
    if |s| == 0 then []
    else if s[|s| - 1].dist < radius then Within(s[..|s| - 1], radius) + [s[|s| - 1]]
    else Within(s[..|s| - 1], radius)
  }

  lemma {:induction false} WithinMembers(s: seq<Entry>, radius: real)
    ensures forall e :: e in Within(s, radius) <==> e in s && e.dist < radius
  {
    if |s| > 0 {
      WithinMembers(s[..|s| - 1], radius);
      assert s == s[..|s| - 1] + [s[|s| - 1]];
    }
  }

  /** Within keeps exactly the entries inside the radius, each as often as it was offered. */
  lemma {:induction false} WithinMeaning(s: seq<Entry>, radius: real)
    ensures forall e :: e in Within(s, radius) <==> e in s && e.dist < radius
    ensures NoDuplicates(s) ==> NoDuplicates(Within(s, radius))
  {
    WithinMembers(s, radius);
    if |s| > 0 && NoDuplicates(s) {
      var init, e := s[..|s| - 1], s[|s| - 1];
      WithinMeaning(init, radius);
      assert e !in init;
    }
  }

  lemma {:induction false} NoDuplicatesMultiplicity(s: seq<Entry>)
    requires NoDuplicates(s)
    ensures forall e :: e in s ==> multiset(s)[e] == 1
  {
    if |s| > 0 {
      var init, e := s[..|s| - 1], s[|s| - 1];
      assert s == init + [e];
      assert e !in init;
      NoDuplicatesMultiplicity(init);
    }
  }

  /** Two duplicate-free lists with the same entries sort to the same list. */
  lemma SortDependsOnEntries(a: seq<Entry>, b: seq<Entry>)
    requires NoDuplicates(a) && NoDuplicates(b)
    requires forall e :: e in a <==> e in b
    ensures SortInOrder(a) == SortInOrder(b)
  {
    NoDuplicatesMultiplicity(a);
    NoDuplicatesMultiplicity(b);
    forall e
      ensures multiset(a)[e] == multiset(b)[e]
    {
      if e in a {
        assert multiset(a)[e] == 1 == multiset(b)[e];
      } else {
        assert e !in multiset(a) && e !in multiset(b);
      }
    }
    assert multiset(a) == multiset(b);
    SortInOrderMeaning(a);
    SortInOrderMeaning(b);
    OrderedListUnique(SortInOrder(a), SortInOrder(b));
  }

  // ---------- A bound read once for a whole list of offers ----------

  lemma {:induction false} WithinOfPart(a: seq<Entry>, b: seq<Entry>, bound: real)
    ensures Within(a + b, bound) == Within(a, bound) + Within(b, bound)
  {
    if |b| == 0 {
      assert a + b == a;
    } else {
      assert (a + b)[..|a + b| - 1] == a + b[..|b| - 1];
      WithinOfPart(a, b[..|b| - 1], bound);
    }
  }

  lemma {:induction false} WithinAll(s: seq<Entry>, bound: real)
    requires forall i :: 0 <= i < |s| ==> s[i].dist < bound
    ensures Within(s, bound) == s
  {
    if |s| > 0 {
      WithinAll(s[..|s| - 1], bound);
      assert s == s[..|s| - 1] + [s[|s| - 1]];
    }
  }

  lemma {:induction false} WithinCount(s: seq<Entry>, bound: real)
    ensures |Within(s, bound)| == CountBelow(s, bound)
  {
    if |s| > 0 {
      WithinCount(s[..|s| - 1], bound);
    }
  }

  lemma InsertInFront(s: seq<Entry>, e: Entry, m: nat)
    requires Ascending(s) && m <= |s|
    requires forall i :: m <= i < |s| ==> s[i].dist > e.dist
    ensures Insert(s, e)[..m + 1] == Insert(s[..m], e)
  {
    SlotOfPrefix(s, e.dist, m);
    assert Slot(s, e.dist) <= m;
  }

  lemma InsertBehind(s: seq<Entry>, e: Entry, m: nat)
    requires Ascending(s) && m <= |s|
    requires forall i :: 0 <= i < m ==> s[i].dist <= e.dist
    ensures Insert(s, e)[..m] == s[..m]
  {
    var p := Slot(s, e.dist);
    assert p < |s| ==> s[p].dist > e.dist;
  }

  lemma FrontBelow(o: seq<Entry>, bound: real)
    ensures forall i :: 0 <= i < |o| ==> (StableSort(o)[i].dist >= bound <==> CountBelow(o, bound) <= i)
  {
    forall i | 0 <= i < |o|
      ensures StableSort(o)[i].dist >= bound <==> CountBelow(o, bound) <= i
    {
      RankByCount(o, i, bound);
    }
  }

  lemma WithinStep(init: seq<Entry>, e: Entry, bound: real)
    ensures Within(init + [e], bound) == if e.dist < bound then Within(init, bound) + [e] else Within(init, bound)
    ensures CountBelow(init + [e], bound) == CountBelow(init, bound) + if e.dist < bound then 1 else 0
  {
    assert (init + [e])[..|init|] == init;
  }

  lemma OneMoreWithin(front: seq<Entry>, s: seq<Entry>, e: Entry, bound: real)
    ensures front + Within(s + [e], bound) == front + Within(s, bound) + if e.dist < bound then [e] else []
  {
    hide Within;
    WithinStep(s, e, bound);
  }

  /** Sorting only what lies below a bound gives the front of the whole stable sort. */
  lemma {:induction false} SortWithin(o: seq<Entry>, bound: real)
    ensures StableSort(Within(o, bound)) == StableSort(o)[..CountBelow(o, bound)]
  {
    hide StableSort, Within, CountBelow;
    if |o| == 0 {
      WithinAll(o, bound);
    } else {
      var init, e := o[..|o| - 1], o[|o| - 1];
      SortWithin(init, bound);
      SortWithinStep(init, e, bound);
      assert o == init + [e];
    }
  }

  lemma SortWithinStep(o: seq<Entry>, e: Entry, bound: real)
    requires StableSort(Within(o, bound)) == StableSort(o)[..CountBelow(o, bound)]
    ensures StableSort(Within(o + [e], bound)) == StableSort(o + [e])[..CountBelow(o + [e], bound)]
  {
    hide StableSort, Insert, Within, CountBelow;
    StableSortMeaning(o);
    SortStep(o, e);
    SortStep(Within(o, bound), e);
    WithinStep(o, e, bound);
    FrontBelow(o, bound);
    if e.dist < bound {
      InsertInFront(StableSort(o), e, CountBelow(o, bound));
    } else {
      InsertBehind(StableSort(o), e, CountBelow(o, bound));
    }
  }

  /** Whatever is offered to a full set, its bound does not rise. */
  lemma {:induction false} FullBoundFalls(o: seq<Entry>, more: seq<Entry>, k: nat, sentinel: real)
    requires 0 < k <= |o|
    ensures WorstOf(o + more, k, sentinel) <= WorstOf(o, k, sentinel)
  {
    if |more| == 0 {
      assert o + more == o;
    } else {
      var init, e := more[..|more| - 1], more[|more| - 1];
      FullBoundFalls(o, init, k, sentinel);
      assert o + more == (o + init) + [e];
      SortStep(o + init, e);
      StableSortMeaning(o + init);
      InsertLowers(StableSort(o + init), e, k - 1);
    }
  }

  /** A full set: offering only what lies below the bound read in front has the same effect as
      offering everything. */
  lemma {:induction false} StaleBoundWhenFull(o: seq<Entry>, more: seq<Entry>, k: nat, sentinel: real)
    requires 0 < k <= |o|
    ensures Nearest(o + Within(more, WorstOf(o, k, sentinel)), k) == Nearest(o + more, k)
  {
    var bound := WorstOf(o, k, sentinel);
    if |more| == 0 {
      assert Within(more, bound) == more;
    } else {
      var init, e := more[..|more| - 1], more[|more| - 1];
      var kept := Within(init, bound);
      StaleBoundWhenFull(o, init, k, sentinel);
      assert o + more == (o + init) + [e];
      if e.dist < bound {
        assert o + Within(more, bound) == (o + kept) + [e];
        NearestStep(o + kept, e, k);
        NearestStep(o + init, e, k);
      } else {
        FullBoundFalls(o, init, k, sentinel);
        IgnoredIffNotNearer(o + init, e, k, sentinel);
      }
    }
  }

  lemma PrefixesAgree<T>(s: seq<T>, m: nat, n: nat, k: nat)
    requires m <= n == |s|
    ensures s[..m][..Min(k, m)] == s[..Min(k, n)] <==> m == n || m >= k
  {
    assert s[..m][..Min(k, m)] == s[..Min(k, m)];
  }

  /** A set that is not full: its bound is the sentinel, and skipping what reaches it changes
      nothing if and only if nothing reaches it or what lies below it fills the set. */
  lemma StaleBoundWhenNotFull(o: seq<Entry>, more: seq<Entry>, k: nat, sentinel: real)
    requires |o| < k && forall i :: 0 <= i < |o| ==> o[i].dist < sentinel
    ensures WorstOf(o, k, sentinel) == sentinel
    ensures Nearest(o + Within(more, sentinel), k) == Nearest(o + more, k)
       <==> CountBelow(more, sentinel) == |more| || |o| + CountBelow(more, sentinel) >= k
  {
    hide StableSort, Within, CountBelow;
    WithinAll(o, sentinel);
    WithinOfPart(o, more, sentinel);
    SortWithin(o + more, sentinel);
    CountConcat(o, more, sentinel);
    CountAllOrNone(o, sentinel);
    WithinCount(more, sentinel);
    PrefixesAgree(StableSort(o + more), |o| + CountBelow(more, sentinel), |o| + |more|, k);
  }

  /** Comparing a whole list of offers with the bound read in front of it drops only what
      insertion would have dropped, exactly if every one of them lies below the sentinel or
      there are enough entries below it to fill the set. */
  lemma StaleBound(o: seq<Entry>, more: seq<Entry>, k: nat, sentinel: real)
    requires k > 0 && (|o| < k ==> forall i :: 0 <= i < |o| ==> o[i].dist < sentinel)
    ensures Nearest(o + Within(more, WorstOf(o, k, sentinel)), k) == Nearest(o + more, k)
       <==> CountBelow(more, sentinel) == |more| || |o| + CountBelow(more, sentinel) >= k
  {
    if |o| < k {
      StaleBoundWhenNotFull(o, more, k, sentinel);
    } else {
      StaleBoundWhenFull(o, more, k, sentinel);
    }
  }

  /** A radius never changes, so comparing with it early drops only what insertion would drop. */
  lemma StaleRadius(o: seq<Entry>, more: seq<Entry>, radius: real)
    ensures Within(o + Within(more, radius), radius) == Within(o + more, radius)
  {
    WithinMembers(more, radius);
    WithinAll(Within(more, radius), radius);
    WithinOfPart(o, Within(more, radius), radius);
    WithinOfPart(o, more, radius);
  }
}

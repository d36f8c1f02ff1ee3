/** The two result sets a search can fill. Each remembers, as ghost state, everything it was
    ever offered; what it holds is always a function of that history. */
module ResultSets {
  import opened Entries

  /** Two parallel lists read as one list of entries. */
  function Zip(dists: seq<real>, indices: seq<nat>): (s: seq<Entry>)
    requires |dists| == |indices|
    ensures |s| == |dists|
    ensures forall i :: 0 <= i < |s| ==> s[i] == Entry(dists[i], indices[i])
  {
    seq(|dists|, i requires 0 <= i < |dists| => Entry(dists[i], indices[i]))
  }

  lemma ZipInjective(d1: seq<real>, i1: seq<nat>, d2: seq<real>, i2: seq<nat>)
    requires |d1| == |i1| && |d2| == |i2| && Zip(d1, i1) == Zip(d2, i2)
    ensures d1 == d2 && i1 == i2
  {
    forall k | 0 <= k < |d1|
      ensures d1[k] == d2[k] && i1[k] == i2[k]
    {
      assert Zip(d1, i1)[k] == Zip(d2, i2)[k];
    }
  }

  /** Opening a slot at p and dropping what no longer fits is insertion followed by truncation. */
  lemma OpenedSlot(was: seq<Entry>, e: Entry, p: nat, now: seq<Entry>)
    requires Ascending(was) && p <= |was| && |now| <= |was| + 1
    requires forall j :: 0 <= j < p && j < |now| ==> now[j] == was[j]
    requires p < |now| ==> now[p] == e
    requires forall j :: p < j < |now| ==> now[j] == was[j - 1]
    requires forall j :: p <= j < |was| ==> was[j].dist > e.dist
    requires p > 0 ==> was[p - 1].dist <= e.dist
    ensures now == Insert(was, e)[..|now|]
  {
  }

  /** KNNResultSet: the caller's two arrays, filled in place by insertion. */
  class KnnResultSet {
    const capacity: nat
    const indices: array<nat>
    const dists: array<real>
    const sentinel: real
    var count: nat
    ghost var offered: seq<Entry>

    ghost predicate Shape()
      reads this
    {
      capacity <= indices.Length && capacity <= dists.Length && count <= capacity
    }

    /** The valid entries, first to last. */
    ghost function Contents(): (s: seq<Entry>)
      requires Shape()
      reads this, indices, dists
      ensures |s| == count
    {
      Zip(dists[..count], indices[..count])
    }

    ghost predicate Valid()
      reads this, indices, dists
    {
      && Shape()
      && Contents() == Nearest(offered, capacity)
      && (count < capacity ==> dists[capacity - 1] == sentinel)
    }

    /** The constructor followed by init(indices, dists). */
    constructor (capacity: nat, indices: array<nat>, dists: array<real>, sentinel: real)
      requires capacity <= indices.Length && capacity <= dists.Length
      modifies dists
      ensures Valid() && offered == []
      ensures this.capacity == capacity && this.indices == indices && this.dists == dists
      ensures this.sentinel == sentinel
    {
      this.capacity := capacity;
      this.indices := indices;
      this.dists := dists;
      this.sentinel := sentinel;
      count := 0;
      offered := [];
      new;
      if capacity > 0 {
        dists[capacity - 1] := sentinel;
      }
    }

    method Size() returns (n: nat)
      requires Valid()
      ensures n == count == Min(capacity, |offered|)
    {
      n := count;
    }

    method Full() returns (b: bool)
      requires Valid()
      ensures b <==> |offered| >= capacity
    {
      b := count == capacity;
    }

    method WorstDist() returns (d: real)
      requires Valid() && capacity > 0
      ensures d == WorstOf(offered, capacity, sentinel)
    {
      d := dists[capacity - 1];
      assert count == capacity ==> Contents()[capacity - 1].dist == d;
    }

    /** The loop of addPoint: walks down from the end, shifting every farther entry up by one
        (the last one falls off when the set is full). */
    method OpenSlot(dist: real) returns (i: nat)
      requires Shape()
      modifies indices, dists
      ensures i <= count
      ensures forall j :: 0 <= j < i ==> dists[j] == old(dists[j]) && indices[j] == old(indices[j])
      ensures forall j :: i < j <= count && j < capacity ==>
                dists[j] == old(dists[j - 1]) && indices[j] == old(indices[j - 1])
      ensures forall j :: i <= j < count ==> old(dists[j]) > dist
      ensures i > 0 ==> old(dists[i - 1]) <= dist
      ensures count + 1 < capacity ==> dists[capacity - 1] == old(dists[capacity - 1])
    {
      i := count;
      while i > 0
        invariant 0 <= i <= count
        invariant forall j :: 0 <= j < i ==> dists[j] == old(dists[j]) && indices[j] == old(indices[j])
        invariant forall j :: i < j <= count && j < capacity ==>
                    dists[j] == old(dists[j - 1]) && indices[j] == old(indices[j - 1])
        invariant forall j :: i <= j < count ==> old(dists[j]) > dist
        invariant count + 1 < capacity ==> dists[capacity - 1] == old(dists[capacity - 1])
      {
        if dists[i - 1] > dist {
          if i < capacity {
            dists[i] := dists[i - 1];
            indices[i] := indices[i - 1];
          }
        } else {
          break;
        }
        i := i - 1;
      }
    }

    method AddPoint(dist: real, index: nat)
      requires Valid()
      modifies this`count, this`offered, indices, dists
      ensures Valid()
      ensures offered == old(offered) + [Entry(dist, index)]
    {
      ghost var was := Contents();
      var i := OpenSlot(dist);
      if i < capacity {
        dists[i] := dist;
        indices[i] := index;
      }
      if count < capacity {
        count := count + 1;
      }
      ghost var e := Entry(dist, index);
      offered := offered + [e];
      Opened(was, old(offered), e, i);
    }

    /** What the insertion loop leaves behind, read as a list. */
    lemma Opened(was: seq<Entry>, o: seq<Entry>, e: Entry, p: nat)
      requires Shape() && count == Min(capacity, |o| + 1)
      requires was == Nearest(o, capacity) && p <= |was|
      requires forall j :: 0 <= j < p && j < count ==> dists[j] == was[j].dist && indices[j] == was[j].index
      requires p < count ==> dists[p] == e.dist && indices[p] == e.index
      requires forall j :: p < j < count ==> dists[j] == was[j - 1].dist && indices[j] == was[j - 1].index
      requires forall j :: p <= j < |was| ==> was[j].dist > e.dist
      requires p > 0 ==> was[p - 1].dist <= e.dist
      ensures Contents() == Nearest(o + [e], capacity)
    {
      NearestAscending(o, capacity);
      OpenedSlot(was, e, p, Contents());
      NearestStep(o, e, capacity);
    }
  }

  /** RadiusResultSet: appends to the caller's vector. */
  class RadiusResultSet {
    const radius: real
    var items: seq<Entry>
    ghost var offered: seq<Entry>

    ghost predicate Valid()
      reads this
    {
      items == Within(offered, radius)
    }

    constructor (radius: real)
      ensures Valid() && offered == [] && this.radius == radius
    {
      this.radius := radius;
      items := [];
      offered := [];
    }

    method AddPoint(dist: real, index: nat)
      requires Valid()
      modifies this
      ensures Valid()
      ensures offered == old(offered) + [Entry(dist, index)]
    {
      if dist < radius {
        items := items + [Entry(dist, index)];
      }
      offered := offered + [Entry(dist, index)];
      assert offered[..|offered| - 1] == old(offered);
    }
  }

  /** What a result set does with its history. */
  datatype Policy = NearestK(capacity: nat, sentinel: real) | WithinRadius(radius: real) {

    /** worstDist() reads dists[capacity - 1]. */
    predicate Usable() {
      NearestK? ==> capacity > 0
    }

    /** No distance at or above this one is ever passed on by a search. */
    function Ceiling(): real {
      match this
      case NearestK(_, sentinel) => sentinel
      case WithinRadius(radius) => radius
    }

    /** The bound reported by worstDist() after a given history. */
    function WorstAfter(offered: seq<Entry>): real
      requires Usable()
    {
      match this
      case NearestK(k, sentinel) => WorstOf(offered, k, sentinel)
      case WithinRadius(radius) => radius
    }

    /** What the set holds after a given history. */
    function Holds(offered: seq<Entry>): seq<Entry> {
      match this
      case NearestK(k, _) => Nearest(offered, k)
      case WithinRadius(radius) => Within(offered, radius)
    }
  }

  /** The RESULTSET template parameter of the search. */
  datatype ResultSet = Knn(knn: KnnResultSet) | Radius(rad: RadiusResultSet) {

    ghost function Repr(): set<object> {
      match this
      case Knn(k) => {k, k.indices, k.dists}
      case Radius(r) => {r}
    }

    ghost predicate Consistent()
      reads Repr()
    {
      match this
      case Knn(k) => k.Valid()
      case Radius(r) => r.Valid()
    }

    /** Fit for a search, which asks for the bound. */
    ghost predicate Valid()
      reads Repr()
    {
      Consistent() && Policy().Usable()
    }

    ghost function Offered(): seq<Entry>
      reads Repr()
    {
      match this
      case Knn(k) => k.offered
      case Radius(r) => r.offered
    }

    /** What kind of result set this is, as a value. */
    ghost function Policy(): Policy {
      match this
      case Knn(k) => NearestK(k.capacity, k.sentinel)
      case Radius(r) => WithinRadius(r.radius)
    }

    method WorstDist() returns (d: real)
      requires Valid()
      ensures Policy().Usable() && d == Policy().WorstAfter(Offered())
    {
      match this
      case Knn(k) => d := k.WorstDist();
      case Radius(r) => d := r.radius;
    }

    method AddPoint(dist: real, index: nat)
      requires Valid()
      modifies Repr()
      ensures Valid()
      ensures Offered() == old(Offered()) + [Entry(dist, index)]
    {
      match this
      case Knn(k) => k.AddPoint(dist, index);
      case Radius(r) => r.AddPoint(dist, index);
    }

    method Full() returns (b: bool)
      requires Consistent()
      ensures b <==> Radius? || |Offered()| >= knn.capacity
    {
      match this
      case Knn(k) => b := k.Full();
      case Radius(r) => b := true;
    }
  }

  ghost predicate AllBelow(s: seq<Entry>, bound: real) {
    forall i :: 0 <= i < |s| ==> s[i].dist < bound
  }

  /** Offering points below the ceiling never raises the bound, and the bound never exceeds it. */
  lemma BoundFalls(p: Policy, o: seq<Entry>, e: Entry)
    requires p.Usable() && AllBelow(o, p.Ceiling()) && e.dist < p.Ceiling()
    ensures p.WorstAfter(o + [e]) <= p.WorstAfter(o) <= p.Ceiling()
  {
    if p.NearestK? {
      WorstFalls(o, e, p.capacity, p.sentinel);
      BoundBelowCeiling(p, o);
    }
  }

  lemma BoundBelowCeiling(p: Policy, o: seq<Entry>)
    requires p.Usable() && AllBelow(o, p.Ceiling())
    ensures p.WorstAfter(o) <= p.Ceiling()
  {
    if p.NearestK? && p.capacity <= |o| {
      StableSortMeaning(o);
      assert StableSort(o)[p.capacity - 1] in multiset(o);
    }
  }
}

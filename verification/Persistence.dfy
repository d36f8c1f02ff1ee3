/** Saving and loading an index: the tree in pre-order, one record a node, null children not
    written; in front of it the scalar fields, the box and the index array. */
module Persistence {
  import opened Wrappers
  import opened PointSets
  import opened Trees

  /** One value written by save_value. A saved child pointer is only ever compared with null. */
  datatype Record =
    | SizeRecord(size: nat)
    | DimRecord(dim: nat)
    | BoxRecord(box: seq<Interval>)
    | LeafMaxRecord(leafMax: nat)
    | IndicesRecord(v: seq<nat>)
    | NodeRecord(payload: Payload, child1: bool, child2: bool)

  /** FILE*, as the records in it and a read position. */
  class FileStream {
    var records: seq<Record>
    var pos: nat

    ghost predicate Valid()
      reads this
    {
      pos <= |records|
    }

    /** What is still to be read. */
    ghost function Rest(): seq<Record>
      requires Valid()
      reads this
    {
      records[pos..]
    }

    constructor ()
      ensures Valid() && records == [] && pos == 0
    {
      records := [];
      pos := 0;
    }

    method Write(r: Record)
      requires Valid()
      modifies this`records
      ensures Valid() && records == old(records) + [r] && Rest() == old(Rest()) + [r]
    {
      records := records + [r];
    }

    /** None is the failed fread for which load_value throws. */
    method Read() returns (r: Option<Record>)
      requires Valid()
      modifies this`pos
      ensures Valid()
      ensures old(pos) == |records| ==> r == None && pos == old(pos)
      ensures old(pos) < |records| ==> r == Some(records[old(pos)]) && pos == old(pos) + 1
    {
      if pos == |records| {
        return None;
      }
      r := Some(records[pos]);
      pos := pos + 1;
    }
  }

  // ---------- Trees as record sequences ----------

  function TreeRecords(n: Node): seq<Record> {
    if n.Null? then []
    else [NodeRecord(n.payload, n.child1.Node?, n.child2.Node?)] + TreeRecords(n.child1) + TreeRecords(n.child2)
  }

  /** Reading a tree from the front of a record sequence: the tree and what follows it. */
  function ParseTree(s: seq<Record>): (r: Option<(Node, seq<Record>)>)
    ensures r.Some? ==> |r.value.1| < |s|
    decreases |s|
  {
    if |s| == 0 || !s[0].NodeRecord? then None
    else
      var r1 := if s[0].child1 then ParseTree(s[1..]) else Some((Null, s[1..]));
      if r1.None? then None
      else
        var r2 := if s[0].child2 then ParseTree(r1.value.1) else Some((Null, r1.value.1));
        if r2.None? then None
        else Some((Node.Node(s[0].payload, r1.value.0, r2.value.0), r2.value.1))
  }

  /** The leaf ranges in a record sequence, in the order in which they come. */
  function LeafRanges(s: seq<Record>): seq<(nat, nat)> {
    if |s| == 0 then []
    else
      (if s[0].NodeRecord? && s[0].payload.Lr? then [(s[0].payload.left, s[0].payload.right)] else [])
      + LeafRanges(s[1..])
  }

  lemma {:induction false} LeafRangesConcat(a: seq<Record>, b: seq<Record>)
    ensures LeafRanges(a + b) == LeafRanges(a) + LeafRanges(b)
  {
    if |a| == 0 {
      assert a + b == b;
    } else {
      assert (a + b)[1..] == a[1..] + b;
      LeafRangesConcat(a[1..], b);
    }
  }

  /** A tree is written with its root in front and its leaves from left to right. */
  lemma {:induction false} SavedInOrder(n: Node)
    requires Proper(n)
    ensures |TreeRecords(n)| > 0 && TreeRecords(n)[0] == NodeRecord(n.payload, !IsLeaf(n), !IsLeaf(n))
    ensures LeafRanges(TreeRecords(n)) == Leaves(n)
  {
    var root := [NodeRecord(n.payload, n.child1.Node?, n.child2.Node?)];
    assert LeafRanges(root) == if n.payload.Lr? then [(n.payload.left, n.payload.right)] else [] by {
      assert root[1..] == [];
    }
    if IsLeaf(n) {
      assert TreeRecords(n) == root;
    } else {
      SavedInOrder(n.child1);
      SavedInOrder(n.child2);
      LeafRangesConcat(root + TreeRecords(n.child1), TreeRecords(n.child2));
      LeafRangesConcat(root, TreeRecords(n.child1));
    }
  }

  /** Whatever follows it, a saved tree is read back, and reading stops right behind it. */
  lemma {:induction false} ParseSaved(n: Node, suffix: seq<Record>)
    requires n.Node?
    ensures ParseTree(TreeRecords(n) + suffix) == Some((n, suffix))
  {
    var s := TreeRecords(n) + suffix;
    var tail := TreeRecords(n.child2) + suffix;
    assert s[0] == NodeRecord(n.payload, n.child1.Node?, n.child2.Node?);
    assert s[1..] == TreeRecords(n.child1) + tail;
    if n.child1.Node? {
      ParseSaved(n.child1, tail);
    } else {
      assert s[1..] == tail;
    }
    if n.child2.Node? {
      ParseSaved(n.child2, suffix);
    } else {
      assert tail == suffix;
    }
  }

  lemma Reassociate<T>(head: seq<T>, x: seq<T>, y: seq<T>, z: seq<T>)
    ensures head + (x + (y + z)) == head + x + y + z
  {
  }

  /** Nothing else is accepted: what reads as a tree is that tree, saved. */
  lemma {:induction false} ParsedWasSaved(s: seq<Record>)
    requires ParseTree(s).Some?
    ensures ParseTree(s).value.0.Node?
    ensures s == TreeRecords(ParseTree(s).value.0) + ParseTree(s).value.1
    decreases |s|
  {
    var (n, suffix) := ParseTree(s).value;
    var middle := if s[0].child1 then ParseTree(s[1..]).value.1 else s[1..];
    var records1, records2 := TreeRecords(n.child1), TreeRecords(n.child2);
    assert s[1..] == records1 + middle by {
      if s[0].child1 {
        ParsedWasSaved(s[1..]);
      }
    }
    assert middle == records2 + suffix by {
      if s[0].child2 {
        ParsedWasSaved(middle);
      }
    }
    Reassociate([s[0]], records1, records2, suffix);
    assert s == [s[0]] + s[1..];
  }

  method SaveTree(stream: FileStream, tree: Node)
    requires stream.Valid() && tree.Node?
    modifies stream`records
    ensures stream.Valid() && stream.records == old(stream.records) + TreeRecords(tree)
    decreases tree
  {
    stream.Write(NodeRecord(tree.payload, tree.child1.Node?, tree.child2.Node?));
    if tree.child1.Node? {
      SaveTree(stream, tree.child1);
    }
    if tree.child2.Node? {
      SaveTree(stream, tree.child2);
    }
  }

  method LoadTree(stream: FileStream) returns (tree: Option<Node>)
    requires stream.Valid()
    modifies stream`pos
    ensures stream.Valid()
    ensures tree.Some? <==> ParseTree(old(stream.Rest())).Some?
    ensures tree.Some? ==> ParseTree(old(stream.Rest())) == Some((tree.value, stream.Rest()))
    decreases |stream.Rest()|
  {
    ghost var rest := stream.Rest();
    var record := stream.Read();
    assert record.Some? ==> record.value == rest[0] && stream.Rest() == rest[1..];
    if record.None? || !record.value.NodeRecord? {
      return None;
    }
    var child1: Option<Node> := Some(Null);
    if record.value.child1 {
      child1 := LoadTree(stream);
      if child1.None? {
        return None;
      }
    }
    var child2: Option<Node> := Some(Null);
    if record.value.child2 {
      child2 := LoadTree(stream);
      if child2.None? {
        return None;
      }
    }
    tree := Some(Node.Node(record.value.payload, child1.value, child2.value));
  }

  // ---------- Whole indices ----------

  /** The fields of an index that saveIndex writes. */
  datatype Snapshot = Snapshot(size: nat, dim: nat, box: seq<Interval>, leafMax: nat, v: seq<nat>, root: Node)

  function Header(s: Snapshot): seq<Record> {
    [SizeRecord(s.size), DimRecord(s.dim), BoxRecord(s.box), LeafMaxRecord(s.leafMax), IndicesRecord(s.v)]
  }

  function IndexRecords(s: Snapshot): seq<Record> {
    Header(s) + TreeRecords(s.root)
  }

  predicate HasHeader(s: seq<Record>) {
    && |s| >= 5
    && s[0].SizeRecord? && s[1].DimRecord? && s[2].BoxRecord? && s[3].LeafMaxRecord? && s[4].IndicesRecord?
  }

  /** The fields after reading records into them one by one until one is missing or of another kind. */
  function LoadedFields(s: Snapshot, records: seq<Record>): Snapshot {
    if |records| == 0 || !records[0].SizeRecord? then s
    else if |records| == 1 || !records[1].DimRecord? then s.(size := records[0].size)
    else if |records| == 2 || !records[2].BoxRecord? then s.(size := records[0].size, dim := records[1].dim)
    else if |records| == 3 || !records[3].LeafMaxRecord? then
      s.(size := records[0].size, dim := records[1].dim, box := records[2].box)
    else if |records| == 4 || !records[4].IndicesRecord? then
      s.(size := records[0].size, dim := records[1].dim, box := records[2].box, leafMax := records[3].leafMax)
    else Snapshot(records[0].size, records[1].dim, records[2].box, records[3].leafMax, records[4].v, s.root)
  }

  /** A field is overwritten exactly if its record and all in front of it are there; the root never is. */
  lemma LoadedFieldsMeaning(s: Snapshot, r: seq<Record>)
    ensures var t := LoadedFields(s, r);
            && t.root == s.root
            && t.size == (if |r| > 0 && r[0].SizeRecord? then r[0].size else s.size)
            && t.dim == (if |r| > 1 && r[0].SizeRecord? && r[1].DimRecord? then r[1].dim else s.dim)
            && t.box == (if |r| > 2 && r[0].SizeRecord? && r[1].DimRecord? && r[2].BoxRecord? then r[2].box else s.box)
            && (HasHeader(r[..if |r| < 5 then |r| else 5]) ==> t.leafMax == r[3].leafMax && t.v == r[4].v)
            && (!HasHeader(r) ==> t.v == s.v)
  {
  }

  function ParseIndex(s: seq<Record>): Option<(Snapshot, seq<Record>)> {
    if !HasHeader(s) then None
    else
      var tree := ParseTree(s[5..]);
      if tree.None? then None
      else Some((Snapshot(s[0].size, s[1].dim, s[2].box, s[3].leafMax, s[4].v, tree.value.0), tree.value.1))
  }

  /** loadIndex accepts exactly what saveIndex writes for an index with a tree. */
  lemma IndexRoundTrip(s: seq<Record>, snapshot: Snapshot, suffix: seq<Record>)
    ensures ParseIndex(s) == Some((snapshot, suffix)) <==> snapshot.root.Node? && s == IndexRecords(snapshot) + suffix
  {
    if snapshot.root.Node? && s == IndexRecords(snapshot) + suffix {
      ParseSaved(snapshot.root, suffix);
      assert s[5..] == TreeRecords(snapshot.root) + suffix;
    }
    if ParseIndex(s) == Some((snapshot, suffix)) {
      ParsedWasSaved(s[5..]);
      assert s == s[..5] + s[5..];
      assert s[..5] == Header(snapshot);
    }
  }
}

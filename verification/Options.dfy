/** The option tables of program_options_lite and the lookup that stores a (name, value) pair. */
module Options {
  import opened Wrappers

  /** Lexicographic order, the order in which std::map<string, ...> is traversed. */
  predicate Less(a: string, b: string) {
    if |b| == 0 then false
    else if |a| == 0 then true
    else a[0] < b[0] || (a[0] == b[0] && Less(a[1..], b[1..]))
  }

  /** The two agree in front of position i, where the first one has the smaller character. */
  ghost predicate SmallerAt(a: string, b: string, i: nat) {
    i < |a| && i < |b| && a[i] < b[i] && forall k :: 0 <= k < i ==> a[k] == b[k]
  }

  /** A proper prefix comes first; otherwise the first differing character decides. */
  lemma {:induction false} LessMeaning(a: string, b: string)
    ensures Less(a, b) <==> (a <= b && a != b) || exists i :: SmallerAt(a, b, i)
  {
    if |a| > 0 && |b| > 0 {
      LessMeaning(a[1..], b[1..]);
      if a[0] == b[0] {
        assert a == [a[0]] + a[1..] && b == [b[0]] + b[1..];
        forall i: nat
          ensures SmallerAt(a, b, i + 1) <==> SmallerAt(a[1..], b[1..], i)
        {
          SmallerTail(a, b, i);
        }
        assert !SmallerAt(a, b, 0);
        assert forall i: nat :: SmallerAt(a, b, i) ==> i > 0 && SmallerAt(a[1..], b[1..], i - 1);
      } else {
        assert a[0] < b[0] <==> SmallerAt(a, b, 0);
      }
    }
  }

  lemma SmallerTail(a: string, b: string, i: nat)
    requires |a| > 0 && |b| > 0 && a[0] == b[0]
    ensures SmallerAt(a, b, i + 1) <==> SmallerAt(a[1..], b[1..], i)
  {
    if SmallerAt(a, b, i + 1) {
      assert forall k :: 0 <= k < i ==> a[1..][k] == a[k + 1] == b[k + 1] == b[1..][k];
    }
    if SmallerAt(a[1..], b[1..], i) {
      forall k | 0 <= k < i + 1
        ensures a[k] == b[k]
      {
        if k > 0 {
          assert a[k] == a[1..][k - 1] && b[k] == b[1..][k - 1];
        }
      }
    }
  }

  /** An option registered as "prefix*", and the storages registered for it. */
  datatype Prefix = Prefix(key: string, targets: seq<nat>)

  ghost predicate Ordered(prefixes: seq<Prefix>) {
    forall i, j :: 0 <= i < j < |prefixes| ==> Less(prefixes[i].key, prefixes[j].key)
  }

  /** The name tables, as registration left them. A name may have several storages. */
  datatype Tables = Tables(long: map<string, seq<nat>>, short: map<string, seq<nat>>, prefixes: seq<Prefix>)

  /** What storePair does with a pair: hand `value` to each of `targets`. */
  datatype Match = Match(targets: seq<nat>, value: string)

  /** Of the registered prefixes of the name, the shortest. */
  ghost predicate ShortestPrefix(prefixes: seq<Prefix>, name: string, p: Prefix) {
    && p in prefixes && p.key <= name
    && forall o :: o in prefixes && o.key <= name ==> |p.key| <= |o.key|
  }

  /** The storages and the value for a pair: a long name first, then a short one, then a prefix,
      whose unmatched rest is put in front of the value. */
  ghost predicate Meaning(t: Tables, allowLong: bool, allowShort: bool, name: string, value: string, m: Option<Match>) {
    if allowLong && name in t.long then m == Some(Match(t.long[name], value))
    else if allowShort && name in t.short then m == Some(Match(t.short[name], value))
    else if allowLong && exists p :: p in t.prefixes && p.key <= name then
      exists p :: ShortestPrefix(t.prefixes, name, p) && m == Some(Match(p.targets, name[|p.key|..] + " " + value))
    else m == None
  }

  /** Among prefixes of one name, lexicographic order is order by length. */
  lemma {:induction false} PrefixOrder(a: string, b: string, name: string)
    requires a <= name && b <= name && Less(a, b)
    ensures |a| < |b|
  {
    if |a| > 0 && |b| > 0 {
      assert a[0] == name[0] == b[0];
      PrefixOrder(a[1..], b[1..], name[1..]);
    }
  }

  lemma {:induction false} LessIrreflexive(a: string)
    ensures !Less(a, a)
  {
    if |a| > 0 {
      LessIrreflexive(a[1..]);
    }
  }

  /** Meaning leaves no choice. */
  lemma MeaningUnique(t: Tables, allowLong: bool, allowShort: bool, name: string, value: string,
                      m1: Option<Match>, m2: Option<Match>)
    requires Ordered(t.prefixes)
    requires Meaning(t, allowLong, allowShort, name, value, m1) && Meaning(t, allowLong, allowShort, name, value, m2)
    ensures m1 == m2
  {
    forall p, o | ShortestPrefix(t.prefixes, name, p) && ShortestPrefix(t.prefixes, name, o)
      ensures p == o
    {
      var i :| 0 <= i < |t.prefixes| && t.prefixes[i] == p;
      var j :| 0 <= j < |t.prefixes| && t.prefixes[j] == o;
      assert p.key == name[..|p.key|] == o.key;
      LessIrreflexive(p.key);
    }
  }

  /** The first key, in the order of the traversal, that is a prefix of the name. */
  function FirstPrefix(prefixes: seq<Prefix>, name: string): (p: Option<Prefix>)
    ensures p.Some? ==> p.value.key <= name
  {
    if |prefixes| == 0 then None
    else if prefixes[0].key <= name then Some(prefixes[0])
    else FirstPrefix(prefixes[1..], name)
  }

  lemma {:induction false} PrefixFound(prefixes: seq<Prefix>, name: string)
    ensures FirstPrefix(prefixes, name).Some? <==> exists p :: p in prefixes && p.key <= name
  {
    if |prefixes| > 0 {
      PrefixFound(prefixes[1..], name);
      assert forall p :: p in prefixes <==> p == prefixes[0] || p in prefixes[1..];
    }
  }

  /** The lookup of storePair. */
  function Lookup(t: Tables, allowLong: bool, allowShort: bool, name: string, value: string): Option<Match> {
    if allowLong && name in t.long then Some(Match(t.long[name], value))
    else if allowShort && name in t.short then Some(Match(t.short[name], value))
    else if allowLong then
      var p := FirstPrefix(t.prefixes, name);
      if p.Some? then Some(Match(p.value.targets, name[|p.value.key|..] + " " + value)) else None
    else None
  }

  lemma {:induction false} FirstIsShortest(prefixes: seq<Prefix>, name: string)
    requires Ordered(prefixes)
    ensures FirstPrefix(prefixes, name).Some? ==> ShortestPrefix(prefixes, name, FirstPrefix(prefixes, name).value)
    ensures FirstPrefix(prefixes, name).None? ==> forall p :: p in prefixes ==> !(p.key <= name)
  {
    if |prefixes| > 0 {
      var p := prefixes[0];
      FirstIsShortest(prefixes[1..], name);
      assert forall o :: o in prefixes <==> o == p || o in prefixes[1..];
      if p.key <= name {
        forall o | o in prefixes[1..] && o.key <= name
          ensures |p.key| <= |o.key|
        {
          PrefixOrder(p.key, o.key, name);
        }
      }
    }
  }

  /** The first prefix in traversal order is the shortest one, so the lookup is as described. */
  lemma LookupMeaning(t: Tables, allowLong: bool, allowShort: bool, name: string, value: string)
    requires Ordered(t.prefixes)
    ensures Meaning(t, allowLong, allowShort, name, value, Lookup(t, allowLong, allowShort, name, value))
  {
    FirstIsShortest(t.prefixes, name);
    var p := FirstPrefix(t.prefixes, name);
    if p.Some? {
      assert p.value in t.prefixes && p.value.key <= name;
    }
  }

  /** ErrorReporter calls, as they happen. */
  datatype Report = UnknownOption(name: string, value: string) | MissingArgument(name: string)
                  | FormattingError | NoValueFound

  /** The calls of Option::parse for a pair: one for each storage of its name. */
  function Assignments(m: Option<Match>): (a: seq<(nat, string)>)
    ensures |a| == if m.Some? then |m.value.targets| else 0
    ensures forall i :: 0 <= i < |a| ==> a[i] == (m.value.targets[i], m.value.value)
  {
    if m.None? then []
    else seq(|m.value.targets|, i requires 0 <= i < |m.value.targets| => (m.value.targets[i], m.value.value))
  }

  function Complaints(m: Option<Match>, name: string, value: string): seq<Report> {
    if m.Some? then [] else [UnknownOption(name, value)]
  }

  class OptionWriter {
    const tables: Tables
    /** (storage, value) pairs, in the order in which Option::parse is called. */
    var stored: seq<(nat, string)>
    var reports: seq<Report>

    constructor (tables: Tables)
      ensures this.tables == tables && stored == [] && reports == []
    {
      this.tables := tables;
      stored := [];
      reports := [];
    }

    method Report(r: Report)
      modifies this`reports
      ensures reports == old(reports) + [r]
    {
      reports := reports + [r];
    }

    /** setOptions: every storage registered under the name parses the value. */
    method SetOptions(targets: seq<nat>, value: string)
      modifies this`stored
      ensures stored == old(stored) + Assignments(Some(Match(targets, value)))
    {
      for i := 0 to |targets|
        invariant stored == old(stored) + Assignments(Some(Match(targets[..i], value)))
      {
        stored := stored + [(targets[i], value)];
        assert Assignments(Some(Match(targets[..i + 1], value)))
            == Assignments(Some(Match(targets[..i], value))) + [(targets[i], value)];
      }
      assert targets[..|targets|] == targets;
    }

    /** The traversal of opt_prefix_map. */
    method FindPrefix(name: string) returns (found: Option<Prefix>)
      ensures found == FirstPrefix(tables.prefixes, name)
    {
      for i := 0 to |tables.prefixes|
        invariant FirstPrefix(tables.prefixes, name) == FirstPrefix(tables.prefixes[i..], name)
      {
        var p := tables.prefixes[i];
        if |p.key| <= |name| && name[..|p.key|] == p.key {
          return Some(p);
        }
      }
      found := None;
    }

    /** OptionWriter::storePair */
    method StorePair(allowLong: bool, allowShort: bool, name: string, value: string) returns (ok: bool)
      modifies this
      ensures var m := Lookup(tables, allowLong, allowShort, name, value);
              && ok == m.Some?
              && stored == old(stored) + Assignments(m)
              && reports == old(reports) + Complaints(m, name, value)
      ensures !ok ==> stored == old(stored) && reports == old(reports) + [UnknownOption(name, value)]
      ensures ok ==> reports == old(reports) && old(stored) <= stored
      ensures ok <==> || (allowLong && (name in tables.long || exists p :: p in tables.prefixes && p.key <= name))
                      || (allowShort && name in tables.short)
      ensures allowLong && name in tables.long ==>
                && |stored| == |old(stored)| + |tables.long[name]|
                && forall i :: 0 <= i < |tables.long[name]| ==>
                     stored[|old(stored)| + i] == (tables.long[name][i], value)
      ensures !(allowLong && name in tables.long) && allowShort && name in tables.short ==>
                && |stored| == |old(stored)| + |tables.short[name]|
                && forall i :: 0 <= i < |tables.short[name]| ==>
                     stored[|old(stored)| + i] == (tables.short[name][i], value)
    {
      PrefixFound(tables.prefixes, name);
      var targets: seq<nat>, val := [], value;
      var found := false;
      if allowLong && name in tables.long {
        found := true;
        targets := tables.long[name];
      }
      if allowShort && !(found && allowLong) && name in tables.short {
        found := true;
        targets := tables.short[name];
      }
      if allowLong && !found {
        var p := FindPrefix(name);
        if p.Some? {
          val := name[|p.value.key|..] + " " + val;
          targets := p.value.targets;
          found := true;
        }
      }
      if !found {
        Report(UnknownOption(name, value));
        return false;
      }
      SetOptions(targets, val);
      ok := true;
    }
  }
}

/** Reading one line of a configuration file: "name : value", with padding and comments. */
module ConfigScan {
  import opened Options

  /** One of " \t\n\r". */
  predicate Space(c: char) {
    c == ' ' || c == '\t' || c == '\n' || c == '\r'
  }

  predicate NotSpace(c: char) {
    !Space(c)
  }

  predicate SpaceOrColon(c: char) {
    Space(c) || c == ':'
  }

  lemma CharactersAre(c: char)
    ensures Space(c) <==> c in " \t\n\r"
    ensures NotSpace(c) <==> c !in " \t\n\r"
    ensures SpaceOrColon(c) <==> c in " \t\n\r:"
  {
  }

  // ---------- std::string searches; npos is the length of the string ----------

  /** find_first_of, find_first_not_of */
  function Find(line: string, what: char -> bool, from: nat): (p: nat)
    ensures p <= |line|
    ensures from <= |line| ==> from <= p && forall i :: from <= i < p ==> !what(line[i])
    ensures p < |line| ==> from <= p && what(line[p])
    decreases |line| - from
  {
    if from >= |line| then |line|
    else if what(line[from]) then from
    else Find(line, what, from + 1)
  }

  /** find_last_not_of, from position `upto` or the end of the string downwards. */
  function FindLast(line: string, what: char -> bool, upto: nat): (p: int)
    ensures -1 <= p < |line| && p <= upto
    ensures forall i :: p < i <= upto && i < |line| ==> !what(line[i])
    ensures p >= 0 ==> what(line[p])
    decreases upto
  {
    if |line| == 0 then -1
    else if upto < |line| && what(line[upto]) then upto
    else if upto == 0 then -1
    else FindLast(line, what, upto - 1)
  }

  // ---------- Lines ----------

  /** A comment starts at '#' at the front of a word. */
  predicate CommentStart(line: string, from: nat, i: nat)
    requires from <= i < |line|
  {
    line[i] == '#' && (i == from || Space(line[i - 1]))
  }

  /** Where the first comment of the value part starts, or the end of the line. */
  ghost predicate CommentAt(line: string, from: nat, c: nat) {
    && from <= c <= |line|
    && (forall i :: from <= i < c ==> !CommentStart(line, from, i))
    && (c < |line| ==> CommentStart(line, from, c))
  }

  datatype Scanned = Blank | Comment | Malformed | NoValue | Pair(name: string, value: string)

  ghost predicate AllSpace(line: string, lo: nat, hi: nat)
    requires hi <= |line|
  {
    forall i :: lo <= i < hi ==> Space(line[i])
  }

  /** The parts of a line in front of a value: padding, the name in [s, e), padding, the colon at
      k, padding, and at v something else. The name may be empty. */
  ghost predicate Heading(line: string, s: nat, e: nat, k: nat, v: nat)
    ensures Heading(line, s, e, k, v) ==> s <= e <= k < v < |line|
  {
    && s <= e <= k < v < |line|
    && AllSpace(line, 0, s) && NotSpace(line[s]) && line[s] != '#'
    && (forall i :: s <= i < e ==> !SpaceOrColon(line[i]))
    && AllSpace(line, e, k) && line[k] == ':'
    && AllSpace(line, k + 1, v) && NotSpace(line[v])
  }

  /** The parts of a line that holds a pair: the heading, the value in [v, w), padding, and from h
      on possibly a comment. */
  ghost predicate Layout(line: string, s: nat, e: nat, k: nat, v: nat, w: nat, h: nat)
    ensures Layout(line, s, e, k, v, w, h) ==> s <= e <= k < v < w <= h <= |line|
  {
    && Heading(line, s, e, k, v) && v < w <= h <= |line|
    && NotSpace(line[w - 1])
    && (forall i :: v <= i < w ==> !CommentStart(line, v, i))
    && AllSpace(line, w, h)
    && (h < |line| ==> w < h && line[h] == '#')
  }

  /** What a scan of the line has to find. */
  ghost predicate Finds(line: string, r: Scanned) {
    var s := Find(line, NotSpace, 0);
    if s == |line| then r == Blank
    else if line[s] == '#' then r == Comment
    else
      var e := Find(line, SpaceOrColon, s);
      var k := Find(line, NotSpace, e);
      if k == |line| || line[k] != ':' then r == Malformed
      else
        var v := Find(line, NotSpace, k + 1);
        if v == |line| then r == Malformed
        else if line[v] == '#' then r == NoValue
        else exists w: nat, h: nat :: Layout(line, s, e, k, v, w, h) && r == Pair(line[s..e], line[v..w])
  }

  class CfgStreamParser {
    const writer: OptionWriter

    constructor (writer: OptionWriter)
      ensures this.writer == writer
    {
      this.writer := writer;
    }

    /** The loop of scanLine that walks the words of the value until a comment or the end of the
        line, followed by the removal of trailing space: the last character of the value. */
    method ValueEnd(line: string, start: nat) returns (last: int, ghost c: nat)
      requires 0 < start < |line| && NotSpace(line[start])
      requires exists i :: 0 <= i < start && NotSpace(line[i])
      ensures CommentAt(line, start, c)
      ensures 0 <= last < c && NotSpace(line[last]) && AllSpace(line, last + 1, c)
    {
      var valueEnd := start;
      c := start;
      while true
        invariant start <= valueEnd < |line| && c == valueEnd
        invariant forall i :: start <= i < valueEnd ==> !CommentStart(line, start, i)
        invariant NotSpace(line[valueEnd]) && (valueEnd == start || Space(line[valueEnd - 1]))
        decreases |line| - valueEnd
      {
        if line[valueEnd] == '#' {
          valueEnd := valueEnd - 1;
          break;
        }
        var word := valueEnd;
        valueEnd := Find(line, Space, valueEnd);
        valueEnd := Find(line, NotSpace, valueEnd);
        WordSkipped(line, start, word, valueEnd);
        c := valueEnd;
        if valueEnd == |line| {
          break;
        }
      }
      last := FindLast(line, NotSpace, valueEnd);
    }

    /** scanLine */
    method ScanLine(line: string) returns (r: Scanned)
      modifies writer
      ensures Finds(line, r)
      ensures r.Blank? || r.Comment? ==> writer.stored == old(writer.stored) && writer.reports == old(writer.reports)
      ensures r.Malformed? ==>
                && writer.stored == old(writer.stored)
                && writer.reports == old(writer.reports) + [FormattingError]
      ensures r.NoValue? ==>
                && writer.stored == old(writer.stored)
                && writer.reports == old(writer.reports) + [NoValueFound]
      ensures r.Pair? ==>
                var m := Lookup(writer.tables, true, false, r.name, r.value);
                && writer.stored == old(writer.stored) + Assignments(m)
                && writer.reports == old(writer.reports) + Complaints(m, r.name, r.value)
    {
      hide Lookup, Assignments, Complaints, Find, Layout;
      var start := Find(line, NotSpace, 0);
      if start == |line| {
        return Blank;
      }
      if line[start] == '#' {
        return Comment;
      }
      ghost var s := start;
      var optionEnd := Find(line, SpaceOrColon, start);
      var option := line[start..optionEnd];
      start := Find(line, NotSpace, optionEnd);
      if start == |line| {
        writer.Report(FormattingError);
        return Malformed;
      }
      if line[start] != ':' {
        writer.Report(FormattingError);
        return Malformed;
      }
      ghost var k := start;
      start := Find(line, NotSpace, start + 1);
      if start == |line| {
        writer.Report(FormattingError);
        return Malformed;
      }
      assert NotSpace(line[k]);
      var valueEnd, c := ValueEnd(line, start);
      if valueEnd < start {
        NoValueLeft(line, start, valueEnd, c);
        writer.Report(NoValueFound);
        return NoValue;
      }
      var value := line[start..valueEnd + 1];
      ValueFound(line, s, optionEnd, k, start, valueEnd, c);
      r := Pair(option, value);
      var ok := writer.StorePair(true, false, option, value);
    }
  }

  /** No comment starts inside a word or in the space behind it. */
  lemma WordSkipped(line: string, start: nat, word: nat, next: nat)
    requires start <= word < |line| && NotSpace(line[word]) && line[word] != '#'
    requires next == Find(line, NotSpace, Find(line, Space, word))
    ensures word < next
    ensures forall i :: word <= i < next && i < |line| ==> !CommentStart(line, start, i)
    ensures next < |line| ==> Space(line[next - 1])
  {
  }

  /** The value is empty exactly when the value part starts with a comment. */
  lemma NoValueLeft(line: string, v: nat, last: int, c: nat)
    requires v < |line| && NotSpace(line[v]) && CommentAt(line, v, c)
    requires 0 <= last < c && AllSpace(line, last + 1, c)
    ensures last < v <==> line[v] == '#'
  {
    assert CommentStart(line, v, v) <==> line[v] == '#';
    var space := Space(line[v]);
    assert last < v < c ==> space;
  }

  lemma ValueFound(line: string, s: nat, e: nat, k: nat, v: nat, last: nat, c: nat)
    requires s == Find(line, NotSpace, 0) && s < |line| && line[s] != '#'
    requires e == Find(line, SpaceOrColon, s) && k == Find(line, NotSpace, e) && k < |line| && line[k] == ':'
    requires v == Find(line, NotSpace, k + 1) && v < |line|
    requires CommentAt(line, v, c) && v <= last < c && NotSpace(line[last]) && AllSpace(line, last + 1, c)
    ensures Finds(line, Pair(line[s..e], line[v..last + 1]))
  {
    hide Find;
    assert CommentStart(line, v, v) <==> line[v] == '#';
    if c < |line| {
      assert Space(line[c - 1]);
    }
    PairLaidOut(line, s, e, k, v, last + 1, c);
  }

  lemma PairLaidOut(line: string, s: nat, e: nat, k: nat, v: nat, w: nat, h: nat)
    requires Layout(line, s, e, k, v, w, h) && line[v] != '#' && line[s] != '#' && line[k] == ':'
    requires s == Find(line, NotSpace, 0) && e == Find(line, SpaceOrColon, s)
    requires k == Find(line, NotSpace, e) && v == Find(line, NotSpace, k + 1)
    ensures Finds(line, Pair(line[s..e], line[v..w]))
  {
    hide Find, Layout;
  }

  // ---------- Lines and pairs ----------

  lemma FindIs(line: string, what: char -> bool, from: nat, p: nat)
    requires from <= p <= |line| && (forall i :: from <= i < p ==> !what(line[i])) && (p < |line| ==> what(line[p]))
    ensures Find(line, what, from) == p
  {
  }

  /** The parts of a line before the value are where the searches find them. */
  lemma HeadingFound(line: string, s: nat, e: nat, k: nat, v: nat)
    requires Heading(line, s, e, k, v)
    ensures s == Find(line, NotSpace, 0) && e == Find(line, SpaceOrColon, s)
    ensures k == Find(line, NotSpace, e) && v == Find(line, NotSpace, k + 1)
    ensures line[s] != '#' && line[k] == ':'
  {
    FindIs(line, NotSpace, 0, s);
    assert SpaceOrColon(line[e]) by { assert e == k || Space(line[e]); }
    FindIs(line, SpaceOrColon, s, e);
    FindIs(line, NotSpace, e, k);
    FindIs(line, NotSpace, k + 1, v);
  }

  lemma LayoutHeading(line: string, s: nat, e: nat, k: nat, v: nat, w: nat, h: nat)
    requires Layout(line, s, e, k, v, w, h)
    ensures Heading(line, s, e, k, v) && line[v] != '#'
  {
    assert CommentStart(line, v, v) <==> line[v] == '#';
  }

  /** A line without a pair is blank, or a comment... */
  lemma BlankOrComment(line: string, r: Scanned)
    requires Finds(line, r)
    ensures r.Blank? <==> AllSpace(line, 0, |line|)
    ensures r.Comment? <==> exists s: nat :: s < |line| && AllSpace(line, 0, s) && line[s] == '#'
  {
    var first := Find(line, NotSpace, 0);
    assert first < |line| ==> NotSpace(line[first]);
    forall s: nat | s < |line| && AllSpace(line, 0, s) && line[s] == '#'
      ensures s == first
    {
      FindIs(line, NotSpace, 0, s);
    }
  }

  /** ... or a comment takes the place of the value; in all other cases it is malformed. */
  lemma CommentForValue(line: string, r: Scanned)
    requires Finds(line, r)
    ensures r.NoValue? <==> exists s: nat, e: nat, k: nat, v: nat :: Heading(line, s, e, k, v) && line[v] == '#'
  {
    forall s: nat, e: nat, k: nat, v: nat | Heading(line, s, e, k, v) && line[v] == '#'
      ensures r.NoValue?
    {
      hide Heading, Find;
      HeadingFound(line, s, e, k, v);
    }
    if r.NoValue? {
      NoValueHeading(line, r);
    }
  }

  lemma NoValueHeading(line: string, r: Scanned)
    requires Finds(line, r) && r.NoValue?
    ensures exists s: nat, e: nat, k: nat, v: nat :: Heading(line, s, e, k, v) && line[v] == '#'
  {
    var s := Find(line, NotSpace, 0);
    var e := Find(line, SpaceOrColon, s);
    var k := Find(line, NotSpace, e);
    assert Heading(line, s, e, k, Find(line, NotSpace, k + 1));
  }

  /** A shorter value would leave a comment start inside the longer one. */
  lemma ValueNotShorter(line: string, s: nat, e: nat, k: nat, v: nat, w1: nat, h1: nat, w2: nat, h2: nat)
    requires Layout(line, s, e, k, v, w1, h1) && Layout(line, s, e, k, v, w2, h2)
    ensures w1 >= w2
  {
    if w1 < w2 {
      var inner := w2 - 1;
      assert NotSpace(line[inner]);
      assert h1 <= inner;
      var inside := CommentStart(line, v, h1);
    }
  }

  /** A scan stores exactly the pairs that the line is laid out for: it yields (name, value) if
      and only if the line consists of these two, padding, the colon and possibly a comment. */
  lemma PairsExactly(line: string, r: Scanned, name: string, value: string)
    requires Finds(line, r)
    ensures r == Pair(name, value) <==>
            exists s: nat, e: nat, k: nat, v: nat, w: nat, h: nat ::
              Layout(line, s, e, k, v, w, h) && name == line[s..e] && value == line[v..w]
  {
    forall s: nat, e: nat, k: nat, v: nat, w: nat, h: nat
      | Layout(line, s, e, k, v, w, h) && name == line[s..e] && value == line[v..w]
      ensures r == Pair(name, value)
    {
      LayoutIsFound(line, r, s, e, k, v, w, h);
    }
  }

  lemma LayoutIsFound(line: string, r: Scanned, s: nat, e: nat, k: nat, v: nat, w: nat, h: nat)
    requires Finds(line, r) && Layout(line, s, e, k, v, w, h)
    ensures r == Pair(line[s..e], line[v..w])
  {
    hide Layout, Heading, Find;
    LayoutHeading(line, s, e, k, v, w, h);
    HeadingFound(line, s, e, k, v);
    var w': nat, h': nat :| Layout(line, s, e, k, v, w', h') && r == Pair(line[s..e], line[v..w']);
    ValueNotShorter(line, s, e, k, v, w, h, w', h');
    ValueNotShorter(line, s, e, k, v, w', h', w, h);
  }

  // ---------- Lines told from their characters alone ----------

  /** Nothing but characters of " \t\n\r". */
  ghost predicate Blanks(s: string) {
    forall i :: 0 <= i < |s| ==> s[i] in " \t\n\r"
  }

  /** The line starts with blanks, a name, blanks, a colon and blanks; `rest` follows. */
  ghost predicate Headed(line: string, p0: string, name: string, p1: string, p2: string, rest: string) {
    && line == p0 + name + p1 + ":" + p2 + rest
    && Blanks(p0) && Blanks(p1) && Blanks(p2)
    && (forall i :: 0 <= i < |name| ==> name[i] !in " \t\n\r:") && (name != "" ==> name[0] != '#')
    && rest != "" && rest[0] !in " \t\n\r"
  }

  /** A value, blanks, and possibly a comment, which starts a word. The value neither starts nor ends
      with a blank, and no word of it starts with '#'. */
  ghost predicate Valued(rest: string, value: string, space: string, comment: string) {
    && rest == value + space + comment
    && value != "" && value[0] != '#' && value[|value| - 1] !in " \t\n\r"
    && (forall i :: 0 < i < |value| && value[i] == '#' ==> value[i - 1] !in " \t\n\r")
    && Blanks(space) && (comment != "" ==> space != "" && comment[0] == '#')
  }

  lemma BlanksAre(line: string, lo: nat, hi: nat)
    requires lo <= hi <= |line|
    ensures Blanks(line[lo..hi]) <==> AllSpace(line, lo, hi)
  {
    forall i | lo <= i < hi
      ensures Space(line[i]) <==> line[lo..hi][i - lo] in " \t\n\r"
    {
      CharactersAre(line[i]);
    }
    if Blanks(line[lo..hi]) {
      forall i | lo <= i < hi
        ensures Space(line[i])
      {
        assert line[lo..hi][i - lo] in " \t\n\r";
      }
    }
  }

  lemma FivePieces(line: string, s: nat, e: nat, k: nat, v: nat)
    requires s <= e <= k < v <= |line| && line[k] == ':'
    ensures line == line[..s] + line[s..e] + line[e..k] + ":" + line[k + 1..v] + line[v..]
  {
    assert line[k..k + 1] == ":";
  }

  /** A heading, as text ... */
  lemma HeadingWritten(line: string, s: nat, e: nat, k: nat, v: nat)
    requires Heading(line, s, e, k, v)
    ensures Headed(line, line[..s], line[s..e], line[e..k], line[k + 1..v], line[v..])
  {
    FivePieces(line, s, e, k, v);
    BlanksAre(line, 0, s);
    BlanksAre(line, e, k);
    BlanksAre(line, k + 1, v);
    assert line[..s] == line[0..s];
    CharactersAre(line[v]);
    forall i | 0 <= i < e - s
      ensures line[s..e][i] !in " \t\n\r:"
    {
      CharactersAre(line[s + i]);
    }
  }

  /** ... and text as a heading. An empty name may be taken to stand right in front of the colon. */
  lemma WrittenHeading(line: string, p0: string, name: string, p1: string, p2: string, rest: string)
    returns (s: nat, e: nat, k: nat, v: nat)
    requires Headed(line, p0, name, p1, p2, rest)
    ensures Heading(line, s, e, k, v) && line[s..e] == name && line[v..] == rest
  {
    k := |p0| + |name| + |p1|;
    v := k + 1 + |p2|;
    s := if name == "" then k else |p0|;
    e := s + |name|;
    Assembled(line, p0, name, p1, p2, rest);
    CharactersAre(line[v]);
    CharactersAre(line[s]);
    forall i | s <= i < e
      ensures !SpaceOrColon(line[i])
    {
      CharactersAre(line[i]);
      assert line[i] == name[i - s];
    }
    BlanksAre(line, 0, |p0|);
    BlanksAre(line, |p0| + |name|, k);
    BlanksAre(line, k + 1, v);
    assert line[s..e] == name;
  }

  lemma Assembled(line: string, p0: string, name: string, p1: string, p2: string, rest: string)
    requires line == p0 + name + p1 + ":" + p2 + rest
    ensures var a := |p0|;
            var b := a + |name|;
            var k := b + |p1|;
            var v := k + 1 + |p2|;
            && v <= |line| && line[0..a] == p0 && line[a..b] == name && line[b..k] == p1 && line[k] == ':'
            && line[k + 1..v] == p2 && line[v..] == rest
            && (forall i :: a <= i < b ==> line[i] == name[i - a])
            && (rest != "" ==> v < |line| && line[v] == rest[0])
  {
  }

  /** A value part, as positions and as text. */
  lemma ValueWritten(line: string, v: nat, w: nat, h: nat)
    requires v < w <= h <= |line| && NotSpace(line[v])
    ensures Valued(line[v..], line[v..w], line[w..h], line[h..])
       <==> && line[v] != '#' && NotSpace(line[w - 1])
            && (forall i :: v <= i < w ==> !CommentStart(line, v, i))
            && AllSpace(line, w, h) && (h < |line| ==> w < h && line[h] == '#')
  {
    var value := line[v..w];
    assert line[v..] == line[v..w] + line[w..h] + line[h..];
    BlanksAre(line, w, h);
    CharactersAre(line[w - 1]);
    assert value[0] == line[v] && value[|value| - 1] == line[w - 1];
    if forall i :: v <= i < w ==> !CommentStart(line, v, i) {
      forall i | 0 < i < |value| && value[i] == '#'
        ensures value[i - 1] !in " \t\n\r"
      {
        assert !CommentStart(line, v, v + i);
        CharactersAre(line[v + i - 1]);
      }
    }
    if line[v] != '#' && forall i :: 0 < i < |value| && value[i] == '#' ==> value[i - 1] !in " \t\n\r" {
      forall i | v <= i < w
        ensures !CommentStart(line, v, i)
      {
        if i > v {
          CharactersAre(line[i - 1]);
          assert value[i - v] == line[i] && value[i - v - 1] == line[i - 1];
        }
      }
    }
  }

  lemma LayoutWritten(line: string, s: nat, e: nat, k: nat, v: nat, w: nat, h: nat)
    requires Layout(line, s, e, k, v, w, h)
    ensures Headed(line, line[..s], line[s..e], line[e..k], line[k + 1..v], line[v..])
    ensures Valued(line[v..], line[v..w], line[w..h], line[h..])
  {
    hide Headed, Valued;
    LayoutHeading(line, s, e, k, v, w, h);
    HeadingWritten(line, s, e, k, v);
    ValueWritten(line, v, w, h);
  }

  lemma WrittenLayout(line: string, p0: string, name: string, p1: string, p2: string, rest: string,
                      value: string, space: string, comment: string)
    returns (s: nat, e: nat, k: nat, v: nat, w: nat, h: nat)
    requires Headed(line, p0, name, p1, p2, rest) && Valued(rest, value, space, comment)
    ensures Layout(line, s, e, k, v, w, h) && name == line[s..e] && value == line[v..w]
  {
    s, e, k, v := WrittenHeading(line, p0, name, p1, p2, rest);
    w := v + |value|;
    h := w + |space|;
    ThreeOf(line, v, value, space, comment);
    hide Headed, Valued;
    ValueWritten(line, v, w, h);
  }

  lemma ThreeOf(line: string, v: nat, value: string, space: string, comment: string)
    requires v <= |line| && line[v..] == value + space + comment
    ensures var w, h := v + |value|, v + |value| + |space|;
            h <= |line| && line[v..w] == value && line[w..h] == space && line[h..] == comment
  {
    var rest := line[v..];
    assert rest[..|value|] == value && rest[|value|..|value| + |space|] == space;
    assert rest[|value| + |space|..] == comment;
  }

  /** What every line is, told from its characters alone: a scan yields a pair if and only if the line
      is written as one, reports a missing value if and only if a comment stands in its place, and
      takes the line as blank or a comment if and only if it is; every other line is malformed. */
  lemma LinesWritten(line: string, r: Scanned)
    requires Finds(line, r)
    ensures r.Blank? <==> Blanks(line)
    ensures r.Comment? <==> exists p: nat :: p < |line| && Blanks(line[..p]) && line[p] == '#'
    ensures r.NoValue? <==> exists p0, name, p1, p2, rest :: Headed(line, p0, name, p1, p2, rest) && rest[0] == '#'
    ensures r.Pair? ==> exists p0, p1, p2, rest, space, comment ::
              Headed(line, p0, r.name, p1, p2, rest) && Valued(rest, r.value, space, comment)
    ensures forall p0, name, p1, p2, rest, value, space, comment ::
              Headed(line, p0, name, p1, p2, rest) && Valued(rest, value, space, comment) ==> r == Pair(name, value)
  {
    hide Headed, Valued, Finds, Blanks;
    BlankOrCommentWritten(line, r);
    NoValueWritten(line, r);
    if r.Pair? {
      FoundPairWritten(line, r);
    }
    forall p0, name, p1, p2, rest, value, space, comment
      | Headed(line, p0, name, p1, p2, rest) && Valued(rest, value, space, comment)
      ensures r == Pair(name, value)
    {
      WrittenPairFound(line, p0, name, p1, p2, rest, value, space, comment, r);
    }
  }

  lemma FoundPairWritten(line: string, r: Scanned)
    requires Finds(line, r) && r.Pair?
    ensures exists p0, p1, p2, rest, space, comment ::
              Headed(line, p0, r.name, p1, p2, rest) && Valued(rest, r.value, space, comment)
  {
    hide Headed, Valued, Heading, Layout, Find, Finds;
    PairsExactly(line, r, r.name, r.value);
    var s: nat, e: nat, k: nat, v: nat, w: nat, h: nat :|
      Layout(line, s, e, k, v, w, h) && r.name == line[s..e] && r.value == line[v..w];
    LayoutWritten(line, s, e, k, v, w, h);
  }

  lemma WrittenPairFound(line: string, p0: string, name: string, p1: string, p2: string, rest: string,
                         value: string, space: string, comment: string, r: Scanned)
    requires Finds(line, r) && Headed(line, p0, name, p1, p2, rest) && Valued(rest, value, space, comment)
    ensures r == Pair(name, value)
  {
    hide Headed, Valued, Heading, Layout, Find, Finds;
    var s, e, k, v, w, h := WrittenLayout(line, p0, name, p1, p2, rest, value, space, comment);
    PairsExactly(line, r, name, value);
  }

  lemma BlankOrCommentWritten(line: string, r: Scanned)
    requires Finds(line, r)
    ensures r.Blank? <==> Blanks(line)
    ensures r.Comment? <==> exists p: nat :: p < |line| && Blanks(line[..p]) && line[p] == '#'
  {
    hide Finds, Blanks;
    BlankOrComment(line, r);
    BlanksAre(line, 0, |line|);
    assert line[0..|line|] == line;
    forall p: nat | p < |line|
      ensures Blanks(line[..p]) <==> AllSpace(line, 0, p)
    {
      BlanksAre(line, 0, p);
      assert line[0..p] == line[..p];
    }
  }

  lemma NoValueWritten(line: string, r: Scanned)
    requires Finds(line, r)
    ensures r.NoValue? <==> exists p0, name, p1, p2, rest :: Headed(line, p0, name, p1, p2, rest) && rest[0] == '#'
  {
    hide Finds, Find, Heading;
    CommentForValue(line, r);
    if r.NoValue? {
      var s: nat, e: nat, k: nat, v: nat :| Heading(line, s, e, k, v) && line[v] == '#';
      HeadingWritten(line, s, e, k, v);
      assert line[v..][0] == '#';
    }
    forall p0, name, p1, p2, rest | Headed(line, p0, name, p1, p2, rest) && rest[0] == '#'
      ensures r.NoValue?
    {
      var s, e, k, v := WrittenHeading(line, p0, name, p1, p2, rest);
      assert line[v] == line[v..][0];
    }
  }

  /** A pair that is written down is read back: for every name that is neither empty nor holds a blank
      or a colon nor starts with '#', every value without a blank at its ends or a '#' at the front of
      a word, any padding and any trailing comment, inner blanks of the value included. */
  lemma RoundTrip(p0: string, name: string, p1: string, p2: string, value: string, space: string, comment: string,
                  r: Scanned)
    requires forall c :: c in p0 || c in p1 || c in p2 || c in space ==> c in " \t\n\r"
    requires name != "" && name[0] != '#' && forall c :: c in name ==> c !in " \t\n\r:"
    requires value != "" && value[0] !in " \t\n\r#" && value[|value| - 1] !in " \t\n\r"
    requires forall i :: 0 < i < |value| && value[i] == '#' ==> value[i - 1] !in " \t\n\r"
    requires comment != "" ==> space != "" && comment[0] == '#'
    requires Finds(p0 + name + p1 + ":" + p2 + value + space + comment, r)
    ensures r == Pair(name, value)
  {
    var line := p0 + name + p1 + ":" + p2 + value + space + comment;
    var rest := value + space + comment;
    Regroup(p0 + name + p1 + ":" + p2, value, space, comment);
    assert Headed(line, p0, name, p1, p2, rest);
    assert Valued(rest, value, space, comment);
    LinesWritten(line, r);
  }

  lemma Regroup<T>(a: seq<T>, b: seq<T>, c: seq<T>, d: seq<T>)
    ensures a + b + c + d == a + (b + c + d)
  {
  }
}

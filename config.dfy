/** What the configuration loaders share: name/value entries kept in file order, the
    first-match lookup over them, the caller-owned list that the platform.txt and
    boards.txt parsers append to, and the lexing of one `name = value` line. */
module Config {
  import opened Text

  datatype Option<+T> = None | Some(value: T)

  /** One loaded `[name, value]` pair. */
  datatype Entry = Entry(name: string, value: string)

  /** The value of the FIRST entry with this name, scanning in file order: an entry
      appended later under an existing name is never returned. */
  function Lookup(entries: seq<Entry>, name: string): (r: Option<string>)
    ensures r.None? <==> forall i :: 0 <= i < |entries| ==> entries[i].name != name
    ensures r.Some? ==> exists i :: 0 <= i < |entries| && entries[i] == Entry(name, r.value)
                                   && forall j :: 0 <= j < i ==> entries[j].name != name
  {
    if |entries| == 0 then None
    else if entries[0].name == name then Some(entries[0].value)
    else
      var r := Lookup(entries[1..], name);
      assert forall j :: 0 <= j < |entries| - 1 ==> entries[1..][j] == entries[j + 1];
      r
  }

  /** Appending an entry changes only the lookups of names that were absent. */
  lemma {:induction false} LookupAppend(entries: seq<Entry>, e: Entry, name: string)
    ensures Lookup(entries + [e], name) ==
      if Lookup(entries, name).Some? then Lookup(entries, name)
      else if e.name == name then Some(e.value)
      else None
  {
    if |entries| > 0 {
      assert (entries + [e])[1..] == entries[1..] + [e];
      LookupAppend(entries[1..], e, name);
    }
  }

  /** A Python list of `[name, value]` pairs owned by the caller and appended to in place. */
  class EntryList {
    var items: seq<Entry>

    constructor ()
      ensures items == []
    {
      items := [];
    }
  }

  /** `\A\s*#`: a comment line, skipped by every loader. */
  predicate IsConfigComment(line: string) {
    var w := Span(line, 0, IsSpace);
    w < |line| && line[w] == '#'
  }

  /** What each line does, in order, under a classification of single lines. */
  function EachLine<A>(lines: seq<string>, classify: string -> A): (r: seq<A>)
    ensures |r| == |lines|
    ensures forall k :: 0 <= k < |lines| ==> r[k] == classify(lines[k])
  {
    seq(|lines|, k requires 0 <= k < |lines| => classify(lines[k]))
  }

  /** Where the dotted name that follows the leading whitespace ends: the greedy
      `\s*[\w.]*` at the start of a line. */
  function NameEnd(line: string): (n: nat)
    ensures Indent(line) <= n <= |line|
  {
    Span(line, Indent(line), IsNameChar)
  }

  function LeadingName(line: string): string {
    line[Indent(line)..NameEnd(line)]
  }

  /** `\s*=` follows position `i`; if so, returns the text after the `=`. */
  function AfterEquals(line: string, i: nat): (r: Option<string>)
    requires i <= |line|
    ensures r.Some? ==> exists k :: i <= k < |line| && All(line[i..k], IsSpace) && line[k] == '='
                                    && r.value == line[k + 1..]
    ensures r.None? ==> forall k :: i <= k < |line| && line[k] == '=' ==>
                          exists j :: i <= j < k && !IsSpace(line[j])
  {
    var e := Span(line, i, IsSpace);
    if e < |line| && line[e] == '=' then
      assert All(line[i..e], IsSpace);
      Some(line[e + 1..])
    else
      assert forall k :: i <= k < |line| && line[k] == '=' ==> i <= e < k && !IsSpace(line[e]);
      None
  }

  /** `\s*[\w.]*\s*=`, the assignment shape every loader looks for: the leading
      whitespace with the name, and the text after the `=`. */
  function AssignmentSplit(line: string): (r: Option<(string, string)>)
    ensures r.Some? ==> r.value.0 == line[..NameEnd(line)] && AfterEquals(line, NameEnd(line)) == Some(r.value.1)
    ensures r.None? <==> AfterEquals(line, NameEnd(line)).None?
  {
    match AfterEquals(line, NameEnd(line))
    case Some(after) => Some((line[..NameEnd(line)], after))
    case None => None
  }

  /** Where the parts of `name gap = after` are. */
  lemma AssignmentSlices(nameRun: string, gap: string, after: string)
    ensures var line := nameRun + gap + "=" + after;
            |nameRun| + |gap| < |line| && line[..|nameRun|] == nameRun &&
            line[|nameRun|..|nameRun| + |gap|] == gap && line[|nameRun| + |gap|] == '=' &&
            line[|nameRun| + |gap| + 1..] == after
  {
    var withGap := nameRun + gap;
    var withEq := withGap + "=";
    var line := withEq + after;
    OccursConcat(withEq, after);
    OccursConcat(withGap, "=");
    OccursWithin(line, 0, withEq, 0, withGap);
    OccursConcat(nameRun, gap);
    OccursWithin(line, 0, withGap, 0, nameRun);
    OccursWithin(line, 0, withGap, |nameRun|, gap);
    OccursSlice(line, 0, nameRun);
    OccursSlice(line, |nameRun|, gap);
    OccursSlice(line, |withEq|, after);
  }

  /** A line that starts with a dotted name is not indented. */
  lemma NotIndented(line: string, nameRun: string)
    requires nameRun != [] && All(nameRun, IsNameChar)
    requires |nameRun| <= |line| && line[..|nameRun|] == nameRun
    ensures Span(line, 0, IsSpace) == 0 && IsNameChar(line[0])
  {
    assert line[..|nameRun|][0] == line[0];
    SpanAt(line, 0, 0, IsSpace);
  }

  /** The dotted name at the start of a line ends where the gap or the `=` begins. */
  lemma NameRunEnds(line: string, nameRun: string, i: nat)
    requires forall k :: i <= k < |nameRun| ==> IsNameChar(nameRun[k])
    requires i <= |nameRun| < |line|
    requires line[..|nameRun|] == nameRun && !IsNameChar(line[|nameRun|])
    ensures Span(line, i, IsNameChar) == |nameRun|
  {
    forall k | i <= k < |nameRun| ensures IsNameChar(line[k]) {
      assert line[..|nameRun|][k] == line[k];
    }
    SpanAt(line, i, |nameRun|, IsNameChar);
  }

  /** A run of whitespace ends at the `=` after it. */
  lemma GapEnds(line: string, n: nat, gap: string)
    requires All(gap, IsSpace) && n + |gap| < |line|
    requires line[n..n + |gap|] == gap && line[n + |gap|] == '='
    ensures Span(line, n, IsSpace) == n + |gap|
    ensures !IsNameChar(line[n])
  {
    forall k | n <= k < n + |gap| ensures IsSpace(line[k]) {
      assert line[n..n + |gap|][k - n] == line[k];
    }
    SpanAt(line, n, n + |gap|, IsSpace);
    if gap != [] {
      assert line[n..n + |gap|][0] == line[n];
    }
  }

  lemma PrefixParts(line: string, prefix: string, name: string)
    requires |prefix + name| <= |line| && line[..|prefix + name|] == prefix + name
    ensures StartsWith(line, prefix) && line[|prefix|..|prefix + name|] == name
  {
    assert line[..|prefix|] == (prefix + name)[..|prefix|];
    assert line[|prefix|..|prefix + name|] == (prefix + name)[|prefix|..];
  }

  /** The runs of `name gap = after` for a dotted name: no indentation, the name
      ending where the gap begins (from any start `i` inside it), and the text after
      the `=`. */
  lemma AssignmentLine(nameRun: string, gap: string, after: string, i: nat)
    requires nameRun != [] && All(nameRun, IsNameChar) && All(gap, IsSpace) && i <= |nameRun|
    ensures var line := nameRun + gap + "=" + after;
            line[..|nameRun|] == nameRun && Span(line, 0, IsSpace) == 0 && IsNameChar(line[0]) &&
            Span(line, i, IsNameChar) == |nameRun| && AfterEquals(line, |nameRun|) == Some(after)
  {
    var line := nameRun + gap + "=" + after;
    AssignmentSlices(nameRun, gap, after);
    NotIndented(line, nameRun);
    GapEnds(line, |nameRun|, gap);
    NameRunEnds(line, nameRun, i);
  }

  /** The runs of `indent name gap = after`: the name starts after the indentation,
      ends where the gap begins, and the text after the `=` is `after`. */
  lemma IndentedAssignment(indent: string, name: string, gap: string, after: string)
    requires All(indent, IsSpace) && name != [] && All(name, IsNameChar) && All(gap, IsSpace)
    ensures var line := indent + name + gap + "=" + after;
            Indent(line) == |indent| && NameEnd(line) == |indent| + |name| &&
            line[..NameEnd(line)] == indent + name && LeadingName(line) == name &&
            !IsConfigComment(line) && AfterEquals(line, NameEnd(line)) == Some(after)
  {
    var nameRun := indent + name;
    var line := nameRun + gap + "=" + after;
    assert |nameRun| == |indent| + |name|;
    AssignmentSlices(nameRun, gap, after);
    PrefixParts(line, indent, name);
    forall k | 0 <= k < |indent| ensures IsSpace(line[k]) {
      assert line[..|indent|][k] == line[k];
    }
    assert line[|indent|] == name[0] by {
      assert line[|indent|..|nameRun|][0] == line[|indent|];
    }
    SpanAt(line, 0, |indent|, IsSpace);
    forall k | |indent| <= k < |nameRun| ensures IsNameChar(nameRun[k]) {
      assert nameRun[k] == name[k - |indent|];
    }
    GapEnds(line, |nameRun|, gap);
    NameRunEnds(line, nameRun, |indent|);
  }

  /** `\s*=` is looked for in what follows position `i` alone. */
  lemma AfterEqualsShift(line: string, i: nat)
    requires i <= |line|
    ensures AfterEquals(line, i) == AfterEquals(line[i..], 0)
  {
    SpanShift(line, i, 0, IsSpace);
    var e := Span(line, i, IsSpace);
    if e < |line| {
      assert line[i..][e - i] == line[e];
      assert line[i..][e - i + 1..] == line[e + 1..];
    }
  }

  /** `\s*=` right at the start of `gap = after`. */
  lemma GapThenEquals(gap: string, after: string)
    requires All(gap, IsSpace)
    ensures AfterEquals(gap + "=" + after, 0) == Some(after)
  {
    var s := gap + "=" + after;
    OccursConcat(gap + "=", after);
    OccursConcat(gap, "=");
    OccursWithin(s, 0, gap + "=", 0, gap);
    OccursWithin(s, 0, gap + "=", |gap|, "=");
    SpanOver(s, 0, gap, IsSpace);
    OccursSlice(s, |gap| + 1, after);
  }
}

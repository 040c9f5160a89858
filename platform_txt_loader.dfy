/** The older platform.txt reader. Every line that is not a comment and assigns a value
    to a leading dotted name is appended, as a `[name, value]` pair, to one of two lists
    the caller owns: the recipes (names containing `pattern`) or the variables. The
    name keeps its leading whitespace and the value is not stripped: it runs from the
    first non-space after the `=` up to the first `#`, newline included. */
module PlatformTxtLoader {
  import opened Text
  import opened Config
  import opened Filing

  /** The constructor takes the variables list first and the recipes list second. */
  const ToVariables: Slot := First
  const ToPatterns: Slot := Second

  /** `\s*(?P<...>[^#]*)` after the `=`. */
  function RawValue(after: string): (v: string)
    ensures |v| <= |TrimLeft(after)| && v == TrimLeft(after)[..|v|]
    ensures '#' !in v
    ensures |v| == |TrimLeft(after)| || TrimLeft(after)[|v|] == '#'
    ensures v == "" || !IsSpace(v[0])
  {
    var t := TrimLeft(after);
    var e := Span(t, 0, IsNotHash);
    assert e > 0 ==> t[0] == after[Span(after, 0, IsSpace)];
    BeforeHash(t)
  }

  /** One line. Comments are skipped. A leading name containing `pattern` is a recipe:
      the greedy `[.\w]*pattern` then has to be followed by `\s*=`, which needs the
      name to end in `pattern`, or the line raises. Any other leading name followed by
      `\s*=` is a variable. Everything else is skipped. */
  function ClassifyPlatformLine(line: string): (r: Filing)
    ensures r == Ignore <==>
      IsConfigComment(line) || (!Contains(LeadingName(line), "pattern") && AfterEquals(line, NameEnd(line)).None?)
    ensures r == Raise <==>
      !IsConfigComment(line) && Contains(LeadingName(line), "pattern") &&
      (!EndsWith(LeadingName(line), "pattern") || AfterEquals(line, NameEnd(line)).None?)
    ensures r.File? ==>
      AssignmentSplit(line) == Some((r.entry.name, AssignmentSplit(line).value.1)) &&
      r.entry.value == RawValue(AssignmentSplit(line).value.1) &&
      (r.slot == ToPatterns <==> Contains(LeadingName(line), "pattern"))
  {
    var name := LeadingName(line);
    if IsConfigComment(line) then Ignore
    else if Contains(name, "pattern") then
      if !EndsWith(name, "pattern") then Raise
      else match AfterEquals(line, NameEnd(line))
        case None => Raise
        case Some(after) => File(ToPatterns, Entry(line[..NameEnd(line)], RawValue(after)))
    else match AfterEquals(line, NameEnd(line))
      case None => Ignore
      case Some(after) => File(ToVariables, Entry(line[..NameEnd(line)], RawValue(after)))
  }

  /** Every recipe filed has a name ending in `pattern`; no variable's name contains it. */
  lemma PatternNames(lines: seq<string>)
    ensures forall e :: e in Targeted(EachLine(lines, ClassifyPlatformLine), ToPatterns) ==> EndsWith(e.name, "pattern")
    ensures forall e :: e in Targeted(EachLine(lines, ClassifyPlatformLine), ToVariables) ==> !Contains(e.name, "pattern")
  {
    var fs := EachLine(lines, ClassifyPlatformLine);
    forall e | e in Targeted(fs, ToPatterns) ensures EndsWith(e.name, "pattern") {
      var i :| 0 <= i < |fs| && fs[i] == File(ToPatterns, e);
      PatternName(lines[i]);
    }
    forall e | e in Targeted(fs, ToVariables) ensures !Contains(e.name, "pattern") {
      var i :| 0 <= i < |fs| && fs[i] == File(ToVariables, e);
      VariableName(lines[i]);
    }
  }

  lemma PatternName(line: string)
    requires ClassifyPlatformLine(line).File? && ClassifyPlatformLine(line).slot == ToPatterns
    ensures EndsWith(ClassifyPlatformLine(line).entry.name, "pattern")
  {
    var name := LeadingName(line);
    var n := line[..NameEnd(line)];
    assert n[|n| - 7..] == name[|name| - 7..];
  }

  lemma VariableName(line: string)
    requires ClassifyPlatformLine(line).File? && ClassifyPlatformLine(line).slot == ToVariables
    ensures !Contains(ClassifyPlatformLine(line).entry.name, "pattern")
  {
    var w := line[..Indent(line)];
    assert All(w, IsSpace);
    assert line[..NameEnd(line)] == w + LeadingName(line);
    NotContainedPadded(w, LeadingName(line), "pattern");
  }

  /** The constructor's loop over the lines of platform.txt. */
  method ParsePlatformFile(lines: seq<string>, variables: EntryList, patterns: EntryList) returns (raised: bool)
    modifies variables, patterns
    ensures raised <==> Raise in EachLine(lines, ClassifyPlatformLine)
    ensures variables != patterns ==>
      var fs := EachLine(lines, ClassifyPlatformLine);
      variables.items == old(variables.items) + Targeted(fs[..Processed(fs)], ToVariables) &&
      patterns.items == old(patterns.items) + Targeted(fs[..Processed(fs)], ToPatterns)
    ensures variables == patterns ==>
      var fs := EachLine(lines, ClassifyPlatformLine);
      variables.items == old(variables.items) + Entries(fs[..Processed(fs)])
  {
    raised := FileLines(lines, ClassifyPlatformLine, variables, patterns);
  }

  /** An indented recipe line: the name keeps its indentation, the value is the raw
      text after the `=`. */
  lemma RecipeLineFiled(indent: string, name: string, gap: string, after: string)
    requires All(indent, IsSpace) && All(name, IsNameChar) && EndsWith(name, "pattern") && All(gap, IsSpace)
    ensures ClassifyPlatformLine(indent + name + gap + "=" + after) ==
            File(ToPatterns, Entry(indent + name, RawValue(after)))
  {
    IndentedAssignment(indent, name, gap, after);
    ContainsAt(name, "pattern", |name| - 7);
  }

  /** A line whose name does not contain `pattern` is a variable. */
  lemma VariableLineFiled(indent: string, name: string, gap: string, after: string)
    requires All(indent, IsSpace) && name != [] && All(name, IsNameChar) && !Contains(name, "pattern")
    requires All(gap, IsSpace)
    ensures ClassifyPlatformLine(indent + name + gap + "=" + after) ==
            File(ToVariables, Entry(indent + name, RawValue(after)))
  {
    IndentedAssignment(indent, name, gap, after);
  }

  /** `pattern` anywhere but at the end of the name makes the line raise. */
  lemma InnerPatternRaises(indent: string, name: string, gap: string, after: string)
    requires All(indent, IsSpace) && name != [] && All(name, IsNameChar)
    requires Contains(name, "pattern") && !EndsWith(name, "pattern") && All(gap, IsSpace)
    ensures ClassifyPlatformLine(indent + name + gap + "=" + after) == Raise
  {
    IndentedAssignment(indent, name, gap, after);
  }

  /** The value stops at the first `#` but keeps the space before it and a final
      newline. */
  lemma RawValueExamples()
    ensures RawValue(" v #c\n") == "v "
    ensures RawValue("x {y}\n") == "x {y}\n"
  {
    SpanAt(" v #c\n", 0, 1, IsSpace);
    SpanAt("v #c\n", 0, 2, IsNotHash);
    SpanAt("x {y}\n", 0, 0, IsSpace);
    SpanAt("x {y}\n", 0, 6, IsNotHash);
  }
}

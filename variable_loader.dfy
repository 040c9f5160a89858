/** The variable and pattern managers of the builder: they load `name = value` lines
    from platform.txt / boards.txt style files, look names up (first match wins), and
    expand `{name}` placeholders in a recipe by recursive substitution. */
module VariableLoader {
  import opened Text
  import opened Config

  /** What one line contributes: nothing, one entry, or an exception that ends the parse
      (a `.group` call on a regular expression that did not match). */
  datatype LineAction = Skip | Store(entry: Entry) | Fail

  /** Python's `if board_name:`, which is false for None and for the empty string. */
  predicate BoardMode(board: Option<string>) {
    board.Some? && board.value != ""
  }

  /** `(?P<the_variable>[^#]*)` after `=\s*`, then `.strip()`. */
  function AssignedValue(after: string): string {
    Strip(BeforeHash(after))
  }

  lemma AssignedValueIsStripped(after: string)
    ensures var v := AssignedValue(after); Strip(v) == v && (v == "" || (!IsSpace(v[0]) && !IsSpace(v[|v| - 1])))
  {
    StripIsTrimmed(BeforeHash(after));
  }

  /** One line of `Variable_Manager.parse_file`. With a board name, only lines that start
      with `<board>.` and continue with a dotted name and `=` are stored, under the name
      without the prefix; without one, any `name =` line is stored, under the name with its
      leading whitespace. The value is the text after `=`, up to `#`, stripped. */
  function ClassifyVariableLine(line: string, board: Option<string>): (r: LineAction)
    ensures IsConfigComment(line) ==> r == Skip
    ensures BoardMode(board) && !StartsWith(line, board.value + ".") ==> r == Skip
    ensures !BoardMode(board) ==> !r.Fail?
    ensures BoardMode(board) && r.Store? ==> StartsWith(line, board.value + "." + r.entry.name)
    ensures !BoardMode(board) && r.Store? ==>
      StartsWith(line, r.entry.name) && Indent(line) <= |r.entry.name| && All(r.entry.name[..Indent(line)], IsSpace)
    ensures r.Store? ==> Strip(r.entry.value) == r.entry.value
  {
    if IsConfigComment(line) then Skip
    else if BoardMode(board) then ClassifyBoardVariable(line, board.value)
    else ClassifyPlainVariable(line)
  }

  /** The board form: `(?<=^<board>\.)[\w.]*(?=\s*=\s*)`. */
  function ClassifyBoardVariable(line: string, board: string): (r: LineAction)
    ensures !StartsWith(line, board + ".") ==> r == Skip
    ensures r.Store? ==> StartsWith(line, board + "." + r.entry.name) && Strip(r.entry.value) == r.entry.value
  {
    var prefix := board + ".";
    if !StartsWith(line, prefix) then Skip
    else
      var n := Span(line, |prefix|, IsNameChar);
      if AfterEquals(line, n).None? then Skip
      else match AssignmentSplit(line)
        case None => Fail
        case Some((_, after)) =>
          AssignedValueIsStripped(after);
          StartsWithExtend(line, prefix, n);
          Store(Entry(line[|prefix|..n], AssignedValue(after)))
  }

  /** The form without a board: `^\s*[\w.]*(?=\s*=\s*)`. */
  function ClassifyPlainVariable(line: string): (r: LineAction)
    ensures !r.Fail?
    ensures r.Store? ==> StartsWith(line, r.entry.name) && Indent(line) <= |r.entry.name|
                         && All(r.entry.name[..Indent(line)], IsSpace)
                         && Strip(r.entry.value) == r.entry.value
  {
    match AfterEquals(line, NameEnd(line))
    case None => Skip
    case Some(after) =>
      AssignedValueIsStripped(after);
      Store(Entry(line[..NameEnd(line)], AssignedValue(after)))
  }

  /** `ws name gap = after` without a board is stored under `ws name`. */
  lemma PlainVariableLineStored(ws: string, name: string, gap: string, after: string)
    requires All(ws, IsSpace) && name != "" && All(name, IsNameChar) && All(gap, IsSpace)
    ensures ClassifyVariableLine(ws + name + gap + "=" + after, None) == Store(Entry(ws + name, AssignedValue(after)))
  {
    var line := ws + name + gap + "=" + after;
    var n := |ws| + |name|;
    assert line[|ws|] == name[0];
    SpanAt(line, 0, |ws|, IsSpace);
    SpanAt(line, |ws|, n, IsNameChar);
    SpanAt(line, n, n + |gap|, IsSpace);
    assert line[n + |gap|] == '=';
    assert line[..n] == ws + name;
    assert line[n + |gap| + 1..] == after;
  }

  /** Where the parts of `line` = `<board>.name gap = after` are, and where its runs end. */
  lemma BoardLineParts(line: string, board: string, name: string, gap: string, after: string)
    requires board != "" && All(board, IsNameChar) && All(name, IsNameChar) && All(gap, IsSpace)
    requires line == board + "." + name + gap + "=" + after
    ensures var n := |board| + 1 + |name|;
            StartsWith(line, board + ".") && !IsConfigComment(line) &&
            Span(line, |board| + 1, IsNameChar) == n && NameEnd(line) == n &&
            AfterEquals(line, n) == Some(after) && line[|board| + 1..n] == name
  {
    var prefix := board + ".";
    var nameRun := prefix + name;
    assert |prefix| == |board| + 1 && |nameRun| == |board| + 1 + |name| > 0;
    AllConcat(board, ".", IsNameChar);
    AllConcat(prefix, name, IsNameChar);
    AssignmentLine(nameRun, gap, after, 0);
    AssignmentLine(nameRun, gap, after, |prefix|);
    BoardLineRuns(line, board, name, |nameRun|, after);
  }

  /** The same facts, for a line that starts with `<board>.name` and whose runs are known. */
  lemma BoardLineRuns(line: string, board: string, name: string, n: nat, after: string)
    requires n == |board| + 1 + |name| <= |line| && line[..n] == board + "." + name
    requires Span(line, 0, IsSpace) == 0 && IsNameChar(line[0])
    requires Span(line, 0, IsNameChar) == n && Span(line, |board| + 1, IsNameChar) == n
    requires AfterEquals(line, n) == Some(after)
    ensures StartsWith(line, board + ".") && !IsConfigComment(line) &&
            Span(line, |board| + 1, IsNameChar) == n && NameEnd(line) == n &&
            AfterEquals(line, n) == Some(after) && line[|board| + 1..n] == name
  {
    PrefixParts(line, board + ".", name);
  }

  /** `<board>.name gap = after` is stored under `name`, without the board prefix. */
  lemma BoardVariableLineStored(board: string, name: string, gap: string, after: string)
    requires board != "" && All(board, IsNameChar) && All(name, IsNameChar) && All(gap, IsSpace)
    ensures ClassifyVariableLine(board + "." + name + gap + "=" + after, Some(board))
            == Store(Entry(name, AssignedValue(after)))
  {
    var line := board + "." + name + gap + "=" + after;
    BoardLineParts(line, board, name, gap, after);
    BoardVariableStored(line, board, name, |board| + 1 + |name|, after);
    BoardLineClassified(line, board);
  }

  lemma BoardLineClassified(line: string, board: string)
    requires board != "" && !IsConfigComment(line)
    ensures ClassifyVariableLine(line, Some(board)) == ClassifyBoardVariable(line, board)
  {
  }

  /** A line `<board>.` + dotted name + `\s*=` + `after` is stored under the name. */
  lemma BoardVariableStored(line: string, board: string, name: string, n: nat, after: string)
    requires StartsWith(line, board + ".") && |board| + 1 <= n <= |line| && line[|board| + 1..n] == name
    requires Span(line, |board| + 1, IsNameChar) == n && NameEnd(line) == n
    requires AfterEquals(line, n) == Some(after)
    ensures ClassifyBoardVariable(line, board) == Store(Entry(name, AssignedValue(after)))
  {
  }

  /** `\"` for every `"`, so that quotes survive the shell. */
  function EscapeQuotes(s: string): string {
    ReplaceAll(s, "\"", "\\\"")
  }

  predicate QuotesEscaped(s: string) {
    forall i :: 0 <= i < |s| && s[i] == '"' ==> 0 < i && s[i - 1] == '\\'
  }

  lemma {:induction false} EscapeQuotesEscapes(s: string)
    ensures QuotesEscaped(EscapeQuotes(s))
    decreases |s|
  {
    if |s| >= 1 {
      var rest := EscapeQuotes(s[1..]);
      EscapeQuotesEscapes(s[1..]);
      if s[..1] == "\"" {
        assert s[1..] == s[|"\""|..];
        var r := "\\\"" + rest;
        assert EscapeQuotes(s) == r;
        forall i | 0 <= i < |r| && r[i] == '"' ensures 0 < i && r[i - 1] == '\\' {
          if i >= 2 {
            assert rest[i - 2] == '"';
          }
        }
      } else {
        assert s[0] != '"';
        var r := [s[0]] + rest;
        assert EscapeQuotes(s) == r;
        forall i | 0 <= i < |r| && r[i] == '"' ensures 0 < i && r[i - 1] == '\\' {
          if i >= 1 {
            assert rest[i - 1] == '"';
          }
        }
      }
    }
  }

  /** A match of `(-D[\w]*=)"(\{[\w.]*\})"` starting at `i`: the index of the `=` that ends
      the first group and of the `}` that ends the second. */
  function DefineFlagAt(s: string, i: nat): (r: Option<(nat, nat)>)
    requires i <= |s|
    ensures r.Some? ==> i + 2 <= r.value.0 && r.value.0 + 3 <= r.value.1 && r.value.1 + 2 <= |s|
  {
    if i + 2 <= |s| && s[i] == '-' && s[i + 1] == 'D' then
      var a := Span(s, i + 2, IsWordChar);
      if a + 3 <= |s| && s[a] == '=' && s[a + 1] == '"' && s[a + 2] == '{' then
        var b := Span(s, a + 3, IsNameChar);
        if b + 2 <= |s| && s[b] == '}' && s[b + 1] == '"' then Some((a, b)) else None
      else None
    else None
  }

  /** `re.sub` with the template `\1\\\"\2\\\"` from position `i` on: every `-DNAME="{var}"`
      becomes `-DNAME=\\"{var}\\"`; the rest is copied. */
  function RewriteDefinesFrom(s: string, i: nat): string
    requires i <= |s|
    decreases |s| - i
  {
    if i == |s| then ""
    else match DefineFlagAt(s, i)
      case Some((a, b)) => s[i..a + 1] + "\\\\\"" + s[a + 2..b + 1] + "\\\\\"" + RewriteDefinesFrom(s, b + 2)
      case None => [s[i]] + RewriteDefinesFrom(s, i + 1)
  }

  function RewriteDefines(s: string): string {
    RewriteDefinesFrom(s, 0)
  }

  /** Without a define flag the substitution is the identity, which is why the source
      may guard it with a search first. */
  lemma {:induction false} RewriteWithoutDefineFlag(s: string, i: nat)
    requires i <= |s|
    requires forall j :: i <= j <= |s| ==> DefineFlagAt(s, j).None?
    ensures RewriteDefinesFrom(s, i) == s[i..]
    decreases |s| - i
  {
    if i < |s| {
      RewriteWithoutDefineFlag(s, i + 1);
      assert [s[i]] + s[i + 1..] == s[i..];
    }
  }

  /** A quoted placeholder assigned by a `-D` flag gets its quotes escaped for the shell. */
  lemma DefineFlagRewritten(flag: string, name: string)
    requires All(flag, IsWordChar) && All(name, IsNameChar)
    ensures RewriteDefines("-D" + flag + "=\"{" + name + "}\"") == "-D" + flag + "=" + "\\\\\"" + "{" + name + "}" + "\\\\\""
  {
    var s := "-D" + flag + "=\"{" + name + "}\"";
    var a := 2 + |flag|;
    var b := a + 3 + |name|;
    DefineFlagParts(s, flag, name);
    OneDefineFlag(s, a, b);
    Regroup("-D" + flag + "=" + "\\\\\"", "{", name, "}", "\\\\\"");
  }

  /** Where the flag's name and the placeholder lie in `-D<flag>="{<name>}"`. */
  lemma DefineFlagParts(s: string, flag: string, name: string)
    requires All(flag, IsWordChar) && All(name, IsNameChar) && s == "-D" + flag + "=\"{" + name + "}\""
    ensures var a := 2 + |flag|;
            var b := a + 3 + |name|;
            b + 2 == |s| && DefineFlagAt(s, 0) == Some((a, b)) &&
            s[0..a + 1] == "-D" + flag + "=" && s[a + 2..b + 1] == "{" + name + "}"
  {
    var a := 2 + |flag|;
    var b := a + 3 + |name|;
    SpanAt(s, 2, a, IsWordChar);
    SpanAt(s, a + 3, b, IsNameChar);
    assert s[0..a + 1] == "-D" + flag + "=";
    assert s[a + 2..b + 1] == "{" + name + "}";
  }

  /** A text that is exactly one define flag has its quotes escaped. */
  lemma OneDefineFlag(s: string, a: nat, b: nat)
    requires b + 2 == |s| && a + 2 <= b + 1 && DefineFlagAt(s, 0) == Some((a, b))
    ensures RewriteDefines(s) == s[0..a + 1] + "\\\\\"" + s[a + 2..b + 1] + "\\\\\""
  {
    assert RewriteDefinesFrom(s, b + 2) == "";
  }

  lemma Regroup(x: string, y1: string, y2: string, y3: string, q: string)
    ensures x + (y1 + y2 + y3) + q == x + y1 + y2 + y3 + q
  {
  }

  /** One line of `Pattern_Manager.parse_file`: a line whose leading dotted name contains
      `pattern` is a recipe; it is stored when the name ends in `pattern` and `=` follows,
      and raises otherwise. The value has its define flags rewritten and its quotes escaped. */
  function ClassifyPatternLine(line: string): (r: LineAction)
    ensures IsConfigComment(line) ==> r == Skip
    ensures r.Skip? <==> !Contains(LeadingName(line), "pattern")
    ensures r.Fail? <==> Contains(LeadingName(line), "pattern")
                         && (!EndsWith(LeadingName(line), "pattern") || AfterEquals(line, NameEnd(line)).None?)
    ensures r.Store? ==> StartsWith(line, r.entry.name) && EndsWith(r.entry.name, "pattern")
                         && QuotesEscaped(r.entry.value)
  {
    var name := LeadingName(line);
    if IsConfigComment(line) then
      assert name == "";
      Skip
    else if !Contains(name, "pattern") then Skip
    else if !EndsWith(name, "pattern") then Fail
    else match AfterEquals(line, NameEnd(line))
      case None => Fail
      case Some(after) =>
        var value := EscapeQuotes(RewriteDefines(AssignedValue(after)));
        EscapeQuotesEscapes(RewriteDefines(AssignedValue(after)));
        assert line[..NameEnd(line)][NameEnd(line) - 7..] == name[|name| - 7..];
        Store(Entry(line[..NameEnd(line)], value))
  }

  /** `ws name gap = after`, with a dotted name ending in `pattern`, is stored under
      `ws name` with its recipe rewritten and escaped. */
  lemma PatternLineStored(ws: string, name: string, gap: string, after: string)
    requires All(ws, IsSpace) && All(name, IsNameChar) && EndsWith(name, "pattern") && All(gap, IsSpace)
    ensures ClassifyPatternLine(ws + name + gap + "=" + after)
            == Store(Entry(ws + name, EscapeQuotes(RewriteDefines(AssignedValue(after)))))
  {
    var line := ws + name + gap + "=" + after;
    var n := |ws| + |name|;
    assert line[|ws|] == name[0];
    SpanAt(line, 0, |ws|, IsSpace);
    SpanAt(line, |ws|, n, IsNameChar);
    SpanAt(line, n, n + |gap|, IsSpace);
    assert LeadingName(line) == name;
    ContainsAt(name, "pattern", |name| - 7);
    assert line[n + |gap|] == '=';
    assert line[..n] == ws + name;
    assert line[n + |gap| + 1..] == after;
  }

  /** The two kinds of file a manager loads. */
  datatype Dialect = VariableFile(board: Option<string>) | PatternFile

  function ClassifyLine(line: string, dialect: Dialect): LineAction {
    match dialect
    case VariableFile(board) => ClassifyVariableLine(line, board)
    case PatternFile => ClassifyPatternLine(line)
  }

  /** The entries a whole file contributes, in file order, and whether the parse got to
      the end (`false`: a line raised, and the entries before it were already stored). */
  datatype Parsed = Parsed(entries: seq<Entry>, complete: bool)

  /** What each line of a file does, in order. */
  function Actions(lines: seq<string>, dialect: Dialect): (acts: seq<LineAction>)
    ensures |acts| == |lines|
    ensures forall k :: 0 <= k < |lines| ==> acts[k] == ClassifyLine(lines[k], dialect)
  {
    EachLine(lines, l => ClassifyLine(l, dialect))
  }

  /** The entries stored by the actions from `i` on, up to the first that raises. */
  function Collect(acts: seq<LineAction>, i: nat): Parsed
    requires i <= |acts|
    decreases |acts| - i
  {
    if i == |acts| then Parsed([], true)
    else
      match acts[i]
      case Skip => Collect(acts, i + 1)
      case Store(e) =>
        var rest := Collect(acts, i + 1);
        Parsed([e] + rest.entries, rest.complete)
      case Fail => Parsed([], false)
  }

  function ParseLines(lines: seq<string>, dialect: Dialect): Parsed {
    Collect(Actions(lines, dialect), 0)
  }

  lemma {:induction false} CollectSound(acts: seq<LineAction>, i: nat)
    requires i <= |acts|
    ensures Collect(acts, i).complete <==> forall k :: i <= k < |acts| ==> !acts[k].Fail?
    ensures forall e :: e in Collect(acts, i).entries ==> exists k :: i <= k < |acts| && acts[k] == Store(e)
    decreases |acts| - i
  {
    if i < |acts| {
      CollectSound(acts, i + 1);
    }
  }

  /** What the loop of `parse_file` keeps: the entries stored so far, followed by what
      the lines from `i` on store, make up the whole parse. */
  ghost predicate Reading(acts: seq<LineAction>, i: nat, stored: seq<Entry>, goal: Parsed) {
    i <= |acts| &&
    stored + Collect(acts, i).entries == goal.entries &&
    Collect(acts, i).complete == goal.complete
  }

  lemma SkipStep(acts: seq<LineAction>, i: nat, stored: seq<Entry>, goal: Parsed)
    requires Reading(acts, i, stored, goal) && i < |acts| && acts[i] == Skip
    ensures Reading(acts, i + 1, stored, goal)
  {
  }

  lemma StoreStep(acts: seq<LineAction>, i: nat, stored: seq<Entry>, goal: Parsed, e: Entry)
    requires Reading(acts, i, stored, goal) && i < |acts| && acts[i] == Store(e)
    ensures Reading(acts, i + 1, stored + [e], goal)
  {
    assert (stored + [e]) + Collect(acts, i + 1).entries == stored + ([e] + Collect(acts, i + 1).entries);
  }

  lemma FailStep(acts: seq<LineAction>, i: nat, stored: seq<Entry>, goal: Parsed)
    requires Reading(acts, i, stored, goal) && i < |acts| && acts[i] == Fail
    ensures stored == goal.entries && !goal.complete
  {
    assert stored + [] == stored;
  }

  lemma EndStep(acts: seq<LineAction>, stored: seq<Entry>, goal: Parsed)
    requires Reading(acts, |acts|, stored, goal)
    ensures stored == goal.entries && goal.complete
  {
    assert stored + [] == stored;
  }

  /** The loop of `parse_file`, shared by both managers and given the per-line
      classifier of the file's dialect: the entries stored, in file order, up to the
      first line that raises, and whether the end was reached. */
  method ReadLines(lines: seq<string>, classify: string -> LineAction) returns (stored: seq<Entry>, ok: bool)
    ensures stored == Collect(EachLine(lines, classify), 0).entries
    ensures ok == Collect(EachLine(lines, classify), 0).complete
  {
    ghost var acts := EachLine(lines, classify);
    ghost var goal := Collect(acts, 0);
    stored := [];
    var i := 0;
    while i < |lines|
      invariant |acts| == |lines|
      invariant Reading(acts, i, stored, goal)
    {
      var action := classify(lines[i]);
      match action {
        case Skip =>
          SkipStep(acts, i, stored, goal);
        case Store(e) =>
          StoreStep(acts, i, stored, goal, e);
          stored := stored + [e];
        case Fail =>
          FailStep(acts, i, stored, goal);
          return stored, false;
      }
      i := i + 1;
    }
    EndStep(acts, stored, goal);
    return stored, true;
  }

  /** A parse reaches the end exactly when no line raises, and every entry it keeps is
      the entry of one of the lines. */
  lemma ParseLinesSound(lines: seq<string>, dialect: Dialect)
    ensures ParseLines(lines, dialect).complete <==> forall k :: 0 <= k < |lines| ==> !ClassifyLine(lines[k], dialect).Fail?
    ensures forall e :: e in ParseLines(lines, dialect).entries ==>
              exists k :: 0 <= k < |lines| && ClassifyLine(lines[k], dialect) == Store(e)
  {
    CollectSound(Actions(lines, dialect), 0);
  }

  /** Without a board name no line can raise, so a variable file is always read to
      the end. */
  lemma PlainVariableFileCompletes(lines: seq<string>, board: Option<string>)
    requires !BoardMode(board)
    ensures ParseLines(lines, VariableFile(board)).complete
  {
    CollectSound(Actions(lines, VariableFile(board)), 0);
  }

  // ---------------------------------------------------------------------------------
  // Placeholders and their expansion

  /** `{name}`. */
  function Braced(name: string): string {
    "{" + name + "}"
  }

  /** The names `(?<=\{)[\w.]+(?=\})` finds in `s`, in order: a run of name characters
      right after a `{` and right before a `}`. */
  function Placeholders(s: string): (names: seq<string>)
    decreases |s|
  {
    if s == [] then []
    else if s[0] == '{' then
      var e := Span(s, 1, IsNameChar);
      if 1 < e < |s| && s[e] == '}' then [s[1..e]] + Placeholders(s[e + 1..])
      else Placeholders(s[1..])
    else Placeholders(s[1..])
  }

  /** Every placeholder name is a non-empty dotted name. */
  lemma {:induction false} PlaceholderNames(s: string)
    ensures forall k :: 0 <= k < |Placeholders(s)| ==> Placeholders(s)[k] != "" && All(Placeholders(s)[k], IsNameChar)
    decreases |s|
  {
    if s != [] {
      var e := Span(s, 1, IsNameChar);
      if s[0] == '{' && 1 < e < |s| && s[e] == '}' {
        PlaceholderNames(s[e + 1..]);
        assert All(s[1..e], IsNameChar);
      } else {
        PlaceholderNames(s[1..]);
      }
    }
  }

  /** A name that `fetch_variable` resolves to a truthy (non-empty) value. */
  predicate Resolvable(entries: seq<Entry>, name: string) {
    var v := Lookup(entries, name);
    v.Some? && v.value != ""
  }

  /** `replace_variables`: a string without placeholders is returned as is; otherwise each
      placeholder name found in it, in order, whose value is truthy is replaced everywhere
      by that value, itself expanded first when it holds placeholders. The source recurses
      without bound; `fuel` bounds the nesting depth, and None means the expansion did not
      finish within it. */
  function Expand(entries: seq<Entry>, s: string, fuel: nat): Option<string>
    decreases fuel, 1
  {
    if Placeholders(s) == [] then Some(s)
    else if fuel == 0 then None
    else SubstituteAll(entries, s, Placeholders(s), fuel)
  }

  /** The loop of `replace_variables` over the names still to handle. */
  function SubstituteAll(entries: seq<Entry>, cur: string, names: seq<string>, fuel: nat): Option<string>
    requires fuel > 0
    decreases fuel, 0, |names|
  {
    if names == [] then Some(cur)
    else if Resolvable(entries, names[0]) then
      var v := Lookup(entries, names[0]).value;
      var expanded := if Placeholders(v) != [] then Expand(entries, v, fuel - 1) else Some(v);
      match expanded
      case None => None
      case Some(w) => SubstituteAll(entries, ReplaceAll(cur, Braced(names[0]), w), names[1..], fuel)
    else SubstituteAll(entries, cur, names[1..], fuel)
  }

  /** More fuel never changes a finished expansion. */
  lemma {:induction false} ExpandMonotone(entries: seq<Entry>, s: string, f: nat, g: nat)
    requires f <= g && Expand(entries, s, f).Some?
    ensures Expand(entries, s, g) == Expand(entries, s, f)
    decreases f, 1
  {
    if Placeholders(s) != [] {
      SubstituteMonotone(entries, s, Placeholders(s), f, g);
    }
  }

  lemma {:induction false} SubstituteMonotone(entries: seq<Entry>, cur: string, names: seq<string>, f: nat, g: nat)
    requires 0 < f <= g && SubstituteAll(entries, cur, names, f).Some?
    ensures SubstituteAll(entries, cur, names, g) == SubstituteAll(entries, cur, names, f)
    decreases f, 0, |names|
  {
    if names != [] {
      if Resolvable(entries, names[0]) {
        var v := Lookup(entries, names[0]).value;
        if Placeholders(v) != [] {
          ExpandMonotone(entries, v, f - 1, g - 1);
        }
        var w := (if Placeholders(v) != [] then Expand(entries, v, f - 1) else Some(v)).value;
        SubstituteMonotone(entries, ReplaceAll(cur, Braced(names[0]), w), names[1..], f, g);
      } else {
        SubstituteMonotone(entries, cur, names[1..], f, g);
      }
    }
  }

  lemma {:induction false} ContainsPrepend(w: string, x: string, q: string)
    requires Contains(x, q)
    ensures Contains(w + x, q)
  {
    var i := ContainsWitness(x, q);
    assert (w + x)[|w| + i..|w| + i + |q|] == x[i..i + |q|];
    ContainsAt(w + x, q, |w| + i);
  }

  /** An occurrence of `{n}` cannot start inside a prefix free of `{`. */
  lemma {:induction false} ContainsPastPrefix(s: string, q: string, k: nat)
    requires q != [] && q[0] == '{' && k <= |s| && '{' !in s[..k] && Contains(s, q)
    ensures Contains(s[k..], q)
    decreases k
  {
    if k > 0 {
      assert s[..k][0] == s[0];
      assert !StartsWith(s, q) by {
        if |q| <= |s| {
          assert s[..|q|][0] != q[0];
        }
      }
      assert s[1..][..k - 1] == s[..k][1..];
      ContainsPastPrefix(s[1..], q, k - 1);
      assert s[1..][k - 1..] == s[k..];
    }
  }

  /** A character at which `{m}` and `{n}` differ, for distinct names. */
  lemma BracedDiffer(m: string, n: string) returns (d: nat)
    requires m != n && All(m, IsNameChar) && All(n, IsNameChar)
    ensures d < |Braced(m)| && d < |Braced(n)| && Braced(m)[d] != Braced(n)[d]
  {
    if |m| < |n| {
      d := |m| + 1;
      assert Braced(m)[d] == '}' && Braced(n)[d] == n[|m|];
    } else if |n| < |m| {
      d := |n| + 1;
      assert Braced(n)[d] == '}' && Braced(m)[d] == m[|n|];
    } else {
      var j :| 0 <= j < |m| && m[j] != n[j];
      d := j + 1;
      assert Braced(m)[d] == m[j] && Braced(n)[d] == n[j];
    }
  }

  /** Replacing `{m}` never destroys an occurrence of a different `{n}`. */
  lemma {:induction false} ReplaceKeepsOther(s: string, m: string, n: string, w: string)
    requires m != n && All(m, IsNameChar) && All(n, IsNameChar)
    requires Contains(s, Braced(n))
    ensures Contains(ReplaceAll(s, Braced(m), w), Braced(n))
    decreases |s|
  {
    var pat, q := Braced(m), Braced(n);
    if |s| < |pat| {
    } else if StartsWith(s, q) {
      OtherAtStart(s, m, n, w);
    } else if s[..|pat|] == pat {
      OtherPastPattern(s, m, n);
      ReplaceKeepsOther(s[|pat|..], m, n, w);
      ContainsPrepend(w, ReplaceAll(s[|pat|..], pat, w), q);
    } else {
      ReplaceKeepsOther(s[1..], m, n, w);
      ContainsPrepend([s[0]], ReplaceAll(s[1..], pat, w), q);
    }
  }

  /** An occurrence of `{n}` at the start is not where `{m}` is, and it is copied. */
  lemma OtherAtStart(s: string, m: string, n: string, w: string)
    requires m != n && All(m, IsNameChar) && All(n, IsNameChar)
    requires |s| >= |Braced(m)| && StartsWith(s, Braced(n))
    ensures Contains(ReplaceAll(s, Braced(m), w), Braced(n))
  {
    var pat, q := Braced(m), Braced(n);
    var d := BracedDiffer(m, n);
    assert s[..|pat|][d] != pat[d];
    assert ReplaceAll(s, pat, w) == [s[0]] + ReplaceAll(s[1..], pat, w);
    assert s[1..] == (n + "}") + s[|q|..];
    assert '{' !in n + "}" by {
      assert forall c :: c in n + "}" ==> c == '}' || IsNameChar(c);
    }
    ReplaceAllSkipsPrefix(n + "}", s[|q|..], pat, w);
    assert ReplaceAll(s, pat, w)[..|q|] == q;
    ContainsAt(ReplaceAll(s, pat, w), q, 0);
  }

  /** An occurrence of `{n}` that is not at the start of a text starting with `{m}`
      lies after that `{m}`. */
  lemma OtherPastPattern(s: string, m: string, n: string)
    requires All(m, IsNameChar) && |s| >= |Braced(m)| && s[..|Braced(m)|] == Braced(m)
    requires Contains(s, Braced(n)) && !StartsWith(s, Braced(n))
    ensures Contains(s[|Braced(m)|..], Braced(n))
  {
    var pat, q := Braced(m), Braced(n);
    assert Contains(s[1..], q);
    BracedTail(s, m);
    ContainsPastPrefix(s[1..], q, |pat| - 1);
    assert s[1..][|pat| - 1..] == s[|pat|..];
  }

  /** After its `{`, a placeholder `{m}` holds no other `{`. */
  lemma BracedTail(s: string, m: string)
    requires All(m, IsNameChar) && |s| >= |Braced(m)| && s[..|Braced(m)|] == Braced(m)
    ensures |Braced(m)| - 1 <= |s[1..]| && '{' !in s[1..][..|Braced(m)| - 1]
  {
    var pat := Braced(m);
    assert pat[1..] == m + "}";
    assert s[1..][..|pat| - 1] == s[..|pat|][1..];
    assert '{' !in m + "}" by {
      assert forall c :: c in m + "}" ==> c == '}' || IsNameChar(c);
    }
  }

  lemma {:induction false} SubstituteKeepsUnresolved(entries: seq<Entry>, cur: string, names: seq<string>, fuel: nat, n: string)
    requires fuel > 0 && All(n, IsNameChar) && !Resolvable(entries, n)
    requires forall k :: 0 <= k < |names| ==> All(names[k], IsNameChar)
    requires Contains(cur, Braced(n)) && SubstituteAll(entries, cur, names, fuel).Some?
    ensures Contains(SubstituteAll(entries, cur, names, fuel).value, Braced(n))
    decreases |names|
  {
    if names != [] {
      if Resolvable(entries, names[0]) {
        var v := Lookup(entries, names[0]).value;
        var w := (if Placeholders(v) != [] then Expand(entries, v, fuel - 1) else Some(v)).value;
        ReplaceKeepsOther(cur, names[0], n, w);
        SubstituteKeepsUnresolved(entries, ReplaceAll(cur, Braced(names[0]), w), names[1..], fuel, n);
      } else {
        SubstituteKeepsUnresolved(entries, cur, names[1..], fuel, n);
      }
    }
  }

  /** A placeholder whose name is missing, or whose value is empty, is left in the result
      verbatim. */
  lemma ExpandKeepsUnresolved(entries: seq<Entry>, s: string, fuel: nat, n: string)
    requires All(n, IsNameChar) && !Resolvable(entries, n)
    requires Contains(s, Braced(n)) && Expand(entries, s, fuel).Some?
    ensures Contains(Expand(entries, s, fuel).value, Braced(n))
  {
    if Placeholders(s) != [] {
      PlaceholderNames(s);
      SubstituteKeepsUnresolved(entries, s, Placeholders(s), fuel, n);
    }
  }

  /** Text without `{` in front does not change the placeholders found. */
  lemma {:induction false} PlaceholdersSkip(a: string, t: string)
    requires '{' !in a
    ensures Placeholders(a + t) == Placeholders(t)
    decreases |a|
  {
    if a != [] {
      assert (a + t)[0] == a[0] && (a + t)[1..] == a[1..] + t;
      assert a[0] in a;
      assert Placeholders(a + t) == Placeholders((a + t)[1..]);
      PlaceholdersSkip(a[1..], t);
    } else {
      assert a + t == t;
    }
  }

  /** `{n}` in front contributes `n`. */
  lemma PlaceholdersBraced(n: string, t: string)
    requires n != "" && All(n, IsNameChar)
    ensures Placeholders(Braced(n) + t) == [n] + Placeholders(t)
  {
    var s := Braced(n) + t;
    var e := 1 + |n|;
    assert Occurs(s, 1, n) && s[e] == '}';
    SpanOver(s, 1, n, IsNameChar);
    OccursSlice(s, 1, n);
    assert s[e + 1..] == t;
  }

  /** `parts[0] + cells[0] + parts[1] + ... + parts[k]`: literal text with one cell in
      each gap. */
  function Interleave(parts: seq<string>, cells: seq<string>): string
    requires |parts| == |cells| + 1
    decreases |cells|
  {
    if cells == [] then parts[0]
    else parts[0] + (cells[0] + Interleave(parts[1..], cells[1..]))
  }

  function BracedAll(names: seq<string>): (cells: seq<string>)
    ensures |cells| == |names|
    ensures forall i :: 0 <= i < |names| ==> cells[i] == Braced(names[i])
  {
    seq(|names|, i requires 0 <= i < |names| => Braced(names[i]))
  }

  /** A recipe: literal text free of `{`, with the placeholders `{names[i]}` in its
      gaps, repeats allowed. */
  predicate Template(s: string, parts: seq<string>, names: seq<string>) {
    |parts| == |names| + 1
    && (forall i :: 0 <= i < |parts| ==> '{' !in parts[i])
    && (forall i :: 0 <= i < |names| ==> names[i] != "" && All(names[i], IsNameChar))
    && s == Interleave(parts, BracedAll(names))
  }

  /** The placeholders `findall` finds in a recipe are its names, in order. */
  lemma {:induction false} PlaceholdersOfTemplate(s: string, parts: seq<string>, names: seq<string>)
    requires Template(s, parts, names)
    ensures Placeholders(s) == names
    decreases |names|
  {
    if names == [] {
      PlaceholdersSkip(parts[0], []);
      assert parts[0] + [] == parts[0];
    } else {
      var rest := Interleave(parts[1..], BracedAll(names)[1..]);
      assert BracedAll(names)[1..] == BracedAll(names[1..]);
      PlaceholdersOfTemplate(rest, parts[1..], names[1..]);
      PlaceholdersSkip(parts[0], Braced(names[0]) + rest);
      PlaceholdersBraced(names[0], rest);
      assert names == [names[0]] + names[1..];
    }
  }

  lemma BracedInjective(a: string, b: string)
    requires Braced(a) == Braced(b)
    ensures a == b
  {
    assert a == Braced(a)[1..|a| + 1];
  }

  /** Replacing `{m}` in a cell followed by more text: the cell becomes `w` when it is
      `{m}` and is copied when it is another placeholder or holds no `{`. */
  lemma ReplaceCell(c: string, n: string, t: string, m: string, w: string)
    requires All(m, IsNameChar) && All(n, IsNameChar)
    requires '{' !in c || c == Braced(n)
    ensures ReplaceAll(c + t, Braced(m), w) == (if c == Braced(m) then w else c) + ReplaceAll(t, Braced(m), w)
  {
    if '{' !in c {
      assert Braced(m)[0] == '{';
      ReplaceAllSkipsPrefix(c, t, Braced(m), w);
    } else if n == m {
      ReplaceSameCell(m, t, w);
    } else {
      ReplaceOtherCell(n, t, m, w);
    }
  }

  /** `{m}` followed by more text: the placeholder is replaced. */
  lemma ReplaceSameCell(m: string, t: string, w: string)
    ensures ReplaceAll(Braced(m) + t, Braced(m), w) == w + ReplaceAll(t, Braced(m), w)
  {
    var pat := Braced(m);
    assert (pat + t)[..|pat|] == pat && (pat + t)[|pat|..] == t;
  }

  /** `{n}` followed by more text, for another name `m`: the placeholder is copied. */
  lemma ReplaceOtherCell(n: string, t: string, m: string, w: string)
    requires n != m && All(m, IsNameChar) && All(n, IsNameChar)
    ensures ReplaceAll(Braced(n) + t, Braced(m), w) == Braced(n) + ReplaceAll(t, Braced(m), w)
  {
    var pat, c := Braced(m), Braced(n);
    var d := BracedDiffer(m, n);
    assert pat[0] == '{' && c[d] != pat[d];
    if |c + t| >= |pat| {
      assert (c + t)[..|pat|][d] == c[d];
      assert (c + t)[1..] == (n + "}") + t;
      assert '{' !in n + "}" by {
        assert forall ch :: ch in n + "}" ==> ch == '}' || IsNameChar(ch);
      }
      ReplaceAllSkipsPrefix(n + "}", t, pat, w);
      assert c == [c[0]] + (n + "}");
    }
  }

  /** Replacing `{m}` in literal text with cells in its gaps replaces exactly the cells
      that are `{m}`. */
  lemma {:induction false} ReplaceInterleaved(parts: seq<string>, cells: seq<string>, names: seq<string>,
                                              m: string, w: string, cells': seq<string>)
    requires |parts| == |cells| + 1 && |names| == |cells| && |cells'| == |cells|
    requires forall i :: 0 <= i < |parts| ==> '{' !in parts[i]
    requires All(m, IsNameChar) && forall i :: 0 <= i < |names| ==> All(names[i], IsNameChar)
    requires forall i :: 0 <= i < |cells| ==> '{' !in cells[i] || cells[i] == Braced(names[i])
    requires forall i :: 0 <= i < |cells| ==> cells'[i] == if cells[i] == Braced(m) then w else cells[i]
    ensures ReplaceAll(Interleave(parts, cells), Braced(m), w) == Interleave(parts, cells')
    decreases |cells|
  {
    assert Braced(m)[0] == '{';
    if cells == [] {
      ReplaceAllAbsent(parts[0], Braced(m), w);
    } else {
      var t := Interleave(parts[1..], cells[1..]);
      ReplaceAllSkipsPrefix(parts[0], cells[0] + t, Braced(m), w);
      ReplaceCell(cells[0], names[0], t, m, w);
      ReplaceInterleaved(parts[1..], cells[1..], names[1..], m, w, cells'[1..]);
    }
  }

  /** Every name with a truthy value expands, one level of fuel down, to text free
      of `{`. */
  predicate ValuesExpand(entries: seq<Entry>, names: seq<string>, fuel: nat) {
    fuel > 0 &&
    forall i :: 0 <= i < |names| && Resolvable(entries, names[i]) ==>
      var w := Expand(entries, Lookup(entries, names[i]).value, fuel - 1);
      w.Some? && '{' !in w.value
  }

  /** What each placeholder of a recipe becomes: the expansion of its truthy value, or
      itself when the name is missing or its value empty. */
  function Resolved(entries: seq<Entry>, names: seq<string>, fuel: nat): (cells: seq<string>)
    requires ValuesExpand(entries, names, fuel)
    ensures |cells| == |names|
  {
    seq(|names|, i requires 0 <= i < |names| && ValuesExpand(entries, names, fuel) =>
      if Resolvable(entries, names[i]) then Expand(entries, Lookup(entries, names[i]).value, fuel - 1).value
      else Braced(names[i]))
  }

  /** The state of the loop of `replace_variables`: each cell is already resolved, or is
      still its placeholder with its name among those left to handle. */
  ghost predicate Pending(entries: seq<Entry>, names: seq<string>, fuel: nat, rest: seq<string>, cells: seq<string>)
    requires ValuesExpand(entries, names, fuel) && |cells| == |names|
  {
    forall i :: 0 <= i < |names| ==>
      cells[i] == Resolved(entries, names, fuel)[i] || (cells[i] == Braced(names[i]) && names[i] in rest)
  }

  lemma {:induction false} SubstituteInterleaved(entries: seq<Entry>, parts: seq<string>, names: seq<string>,
                                                 cells: seq<string>, rest: seq<string>, fuel: nat)
    requires ValuesExpand(entries, names, fuel)
    requires |parts| == |names| + 1 && |cells| == |names|
    requires forall i :: 0 <= i < |parts| ==> '{' !in parts[i]
    requires forall i :: 0 <= i < |names| ==> All(names[i], IsNameChar)
    requires forall j :: 0 <= j < |rest| ==> rest[j] in names
    requires Pending(entries, names, fuel, rest, cells)
    ensures SubstituteAll(entries, Interleave(parts, cells), rest, fuel)
            == Some(Interleave(parts, Resolved(entries, names, fuel)))
    decreases |rest|
  {
    var res := Resolved(entries, names, fuel);
    if rest == [] {
      assert cells == res;
    } else {
      var m := rest[0];
      assert forall j :: 0 <= j < |rest[1..]| ==> rest[1..][j] == rest[j + 1];
      var k :| 0 <= k < |names| && names[k] == m;
      if Resolvable(entries, m) {
        var w := Expand(entries, Lookup(entries, m).value, fuel - 1).value;
        assert res[k] == w && '{' !in w;
        var cells' := seq(|cells|, i requires 0 <= i < |cells| => if cells[i] == Braced(m) then w else cells[i]);
        forall i | 0 <= i < |names| ensures '{' !in cells[i] || cells[i] == Braced(names[i]) {
        }
        ReplaceInterleaved(parts, cells, names, m, w, cells');
        PendingAfterReplace(entries, names, fuel, rest, cells, w, cells');
        SubstituteInterleaved(entries, parts, names, cells', rest[1..], fuel);
      } else {
        PendingAfterSkip(entries, names, fuel, rest, cells);
        SubstituteInterleaved(entries, parts, names, cells, rest[1..], fuel);
      }
    }
  }

  /** Replacing the first pending name by its expansion keeps the loop state. */
  lemma PendingAfterReplace(entries: seq<Entry>, names: seq<string>, fuel: nat, rest: seq<string>,
                            cells: seq<string>, w: string, cells': seq<string>)
    requires ValuesExpand(entries, names, fuel) && |cells| == |names| && |cells'| == |names|
    requires rest != [] && Resolvable(entries, rest[0]) && rest[0] in names
    requires w == Expand(entries, Lookup(entries, rest[0]).value, fuel - 1).value
    requires Pending(entries, names, fuel, rest, cells)
    requires forall i :: 0 <= i < |cells| ==> cells'[i] == if cells[i] == Braced(rest[0]) then w else cells[i]
    ensures Pending(entries, names, fuel, rest[1..], cells')
  {
    var res := Resolved(entries, names, fuel);
    forall i | 0 <= i < |names|
      ensures cells'[i] == res[i] || (cells'[i] == Braced(names[i]) && names[i] in rest[1..])
    {
      PendingCellAfterReplace(rest, names[i], cells[i], res[i], w, cells'[i]);
    }
  }

  /** One cell of `PendingAfterReplace`: `res` is what the cell's name resolves to, and
      `w` what the head of `rest` resolves to. */
  lemma PendingCellAfterReplace(rest: seq<string>, name: string, cell: string, res: string, w: string, cell': string)
    requires rest != []
    requires cell == res || (cell == Braced(name) && name in rest)
    requires name == rest[0] ==> res == w
    requires res == Braced(name) || '{' !in res
    requires cell' == if cell == Braced(rest[0]) then w else cell
    requires '{' !in w
    ensures cell' == res || (cell' == Braced(name) && name in rest[1..])
  {
    if cell == Braced(rest[0]) {
      assert cell[0] == '{';
      assert Braced(name) == cell;
      BracedInjective(name, rest[0]);
    } else if cell != res {
      assert name != rest[0] && rest == [rest[0]] + rest[1..];
    }
  }

  /** Skipping a name without a truthy value keeps the loop state. */
  lemma PendingAfterSkip(entries: seq<Entry>, names: seq<string>, fuel: nat, rest: seq<string>, cells: seq<string>)
    requires ValuesExpand(entries, names, fuel) && |cells| == |names|
    requires rest != [] && !Resolvable(entries, rest[0])
    requires Pending(entries, names, fuel, rest, cells)
    ensures Pending(entries, names, fuel, rest[1..], cells)
  {
    var res := Resolved(entries, names, fuel);
    forall i | 0 <= i < |names|
      ensures cells[i] == res[i] || (cells[i] == Braced(names[i]) && names[i] in rest[1..])
    {
      if cells[i] != res[i] {
        assert names[i] != rest[0] && rest == [rest[0]] + rest[1..];
      }
    }
  }

  /** `replace_variables` on a recipe: every placeholder with a truthy value is replaced,
      wherever it stands, by the expansion of that value, and every other placeholder
      stays as it is. */
  lemma ExpandTemplate(entries: seq<Entry>, s: string, parts: seq<string>, names: seq<string>, fuel: nat)
    requires Template(s, parts, names) && ValuesExpand(entries, names, fuel)
    ensures Expand(entries, s, fuel) == Some(Interleave(parts, Resolved(entries, names, fuel)))
  {
    PlaceholdersOfTemplate(s, parts, names);
    if names == [] {
      assert Resolved(entries, names, fuel) == BracedAll(names);
    } else {
      SubstituteInterleaved(entries, parts, names, BracedAll(names), names, fuel);
    }
  }

  // ---------------------------------------------------------------------------------
  // The managers

  /** `Variable_Manager`: a list of `[name, value]` pairs loaded from files. The source's
      constructor is this constructor followed by one `ParseFile`. */
  class VariableManager {
    var variables: seq<Entry>

    constructor ()
      ensures variables == []
    {
      variables := [];
    }

    /** `parse_file`: appends each stored line's entry in file order; stops at a line
        that raises, keeping what was appended before it. */
    method ParseFile(lines: seq<string>, board: Option<string>) returns (ok: bool)
      modifies this
      ensures variables == old(variables) + ParseLines(lines, VariableFile(board)).entries
      ensures ok == ParseLines(lines, VariableFile(board)).complete
    {
      var stored, ok' := ReadLines(lines, l => ClassifyLine(l, VariableFile(board)));
      assert EachLine(lines, l => ClassifyLine(l, VariableFile(board))) == Actions(lines, VariableFile(board));
      variables := variables + stored;
      return ok';
    }

    /** `fetch_variable`: the value of the first entry with this name. */
    function FetchVariable(name: string): (r: Option<string>)
      reads this
      ensures r.None? <==> forall i :: 0 <= i < |variables| ==> variables[i].name != name
      ensures r.Some? ==> exists i :: 0 <= i < |variables| && variables[i] == Entry(name, r.value)
    {
      Lookup(variables, name)
    }

    /** `add_variable`: appends; an existing name keeps its old value. */
    method AddVariable(e: Entry)
      modifies this
      ensures variables == old(variables) + [e]
      ensures forall n :: Lookup(variables, n) ==
                (if old(Lookup(variables, n)).Some? then old(Lookup(variables, n))
                 else if n == e.name then Some(e.value) else None)
    {
      ghost var before := variables;
      variables := variables + [e];
      forall n ensures Lookup(variables, n) ==
        if Lookup(before, n).Some? then Lookup(before, n)
        else if n == e.name then Some(e.value) else None
      {
        LookupAppend(before, e, n);
      }
    }

    /** `replace_variables` over the loaded entries. */
    function ReplaceVariables(pattern: string, fuel: nat): (r: Option<string>)
      reads this
      ensures Placeholders(pattern) == [] ==> r == Some(pattern)
      ensures r.Some? ==> forall n :: (All(n, IsNameChar) && !Resolvable(variables, n)
                                      && Contains(pattern, Braced(n))) ==> Contains(r.value, Braced(n))
      ensures forall parts, names :: Template(pattern, parts, names) && ValuesExpand(variables, names, fuel)
                ==> r == Some(Interleave(parts, Resolved(variables, names, fuel)))
    {
      var r := Expand(variables, pattern, fuel);
      ExpandEveryTemplate(variables, pattern, fuel);
      if r.Some? then
        KeepsEveryUnresolved(variables, pattern, fuel);
        r
      else r
    }
  }

  lemma ExpandEveryTemplate(entries: seq<Entry>, s: string, fuel: nat)
    ensures forall parts, names :: Template(s, parts, names) && ValuesExpand(entries, names, fuel)
              ==> Expand(entries, s, fuel) == Some(Interleave(parts, Resolved(entries, names, fuel)))
  {
    forall parts, names | Template(s, parts, names) && ValuesExpand(entries, names, fuel)
      ensures Expand(entries, s, fuel) == Some(Interleave(parts, Resolved(entries, names, fuel)))
    {
      ExpandTemplate(entries, s, parts, names, fuel);
    }
  }

  lemma KeepsEveryUnresolved(entries: seq<Entry>, s: string, fuel: nat)
    requires Expand(entries, s, fuel).Some?
    ensures forall n :: (All(n, IsNameChar) && !Resolvable(entries, n)
                         && Contains(s, Braced(n))) ==> Contains(Expand(entries, s, fuel).value, Braced(n))
  {
    forall n | All(n, IsNameChar) && !Resolvable(entries, n) && Contains(s, Braced(n))
      ensures Contains(Expand(entries, s, fuel).value, Braced(n))
    {
      ExpandKeepsUnresolved(entries, s, fuel, n);
    }
  }

  /** `Pattern_Manager`: a list of `[name, recipe]` pairs. */
  class PatternManager {
    var patterns: seq<Entry>

    constructor ()
      ensures patterns == []
    {
      patterns := [];
    }

    method ParseFile(lines: seq<string>) returns (ok: bool)
      modifies this
      ensures patterns == old(patterns) + ParseLines(lines, PatternFile).entries
      ensures ok == ParseLines(lines, PatternFile).complete
    {
      var stored, ok' := ReadLines(lines, l => ClassifyLine(l, PatternFile));
      assert EachLine(lines, l => ClassifyLine(l, PatternFile)) == Actions(lines, PatternFile);
      patterns := patterns + stored;
      return ok';
    }

    /** `fetch_pattern`: the recipe of the first entry with this name. */
    function FetchPattern(name: string): (r: Option<string>)
      reads this
      ensures r.None? <==> forall i :: 0 <= i < |patterns| ==> patterns[i].name != name
      ensures r.Some? ==> exists i :: 0 <= i < |patterns| && patterns[i] == Entry(name, r.value)
    {
      Lookup(patterns, name)
    }
  }
}

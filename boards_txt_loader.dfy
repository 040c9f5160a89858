/** The boards.txt reader. Of the lines that are not comments and begin with the
    chosen board's name and a dot, those whose second segment is `upload` append a
    `[name, value]` pair to the upload list and those whose second segment is `build`
    to the build list, both lists owned by the caller. The name is the third segment
    and the value runs from the first non-space after the `=` up to a `#` or the end
    of the line. Each regular expression is modelled with the backtracking Python's
    `re` does, so that a line it does not match raises as in the original. */
module BoardsTxtLoader {
  import opened Text
  import opened Config
  import opened Filing

  /** The constructor takes the upload list first and the build list second. */
  const ToUpload: Slot := First
  const ToBuild: Slot := Second

  /** `^\s*<board>\.` searched in the line: `^` only matches at the start, and the
      leading `\s*` may give back some of the indentation. */
  predicate IsBoardLine(line: string, board: string) {
    exists w :: 0 <= w <= Indent(line) && StartsWith(line[w..], board + ".")
  }

  /** Where `^\s*\w*` stops: the end of the first segment. */
  function SegmentEnd(line: string): (e: nat)
    ensures Indent(line) <= e <= |line|
  {
    Span(line, Indent(line), IsWordChar)
  }

  /** `^\s*\w*\.<section>\.` searched in the line. Whitespace, word characters and
      the dot exclude one another, so the only way to match is the indentation, the
      whole first segment, and the section right after it. */
  predicate InSection(line: string, section: string) {
    StartsWith(line[SegmentEnd(line)..], "." + section + ".")
  }

  /** `^\s*\w*\.\w*.(?P<the_var_name>\w*)`: the third segment. When the second segment
      is followed by the end of the line or a newline, which `.` does not match, the
      second `\w*` gives its last character to the `.` and the name is empty. */
  function NameGroup(line: string): Option<string> {
    var e := SegmentEnd(line);
    if e == |line| || line[e] != '.' then None
    else
      var r := Span(line, e + 1, IsWordChar);
      if r < |line| && line[r] != '\n' then Some(line[r + 1..Span(line, r + 1, IsWordChar)])
      else if r > e + 1 then Some("")
      else None
  }

  /** `.\s*=` at position `j`: any character but a newline, spaces, and the `=`; the
      text after the `=`. */
  function ValueAfter(line: string, j: nat): Option<string>
    requires j <= |line|
  {
    if j < |line| && line[j] != '\n' then AfterEquals(line, j + 1) else None
  }

  /** The third `\w*` of the value pattern, starting after position `j2`, tried from
      its longest run `j4` down to the empty one. */
  function TryThird(line: string, j2: nat, j4: nat): Option<string>
    requires j2 < j4 <= |line|
    decreases j4
  {
    var r := ValueAfter(line, j4);
    if r.Some? || j4 == j2 + 1 then r else TryThird(line, j2, j4 - 1)
  }

  /** The second `\w*` of the value pattern, starting at `lo`, tried from its longest
      run `j2` down to the empty one, each followed by `.` and the third segment. */
  function TrySecond(line: string, lo: nat, j2: nat): Option<string>
    requires lo <= j2 <= |line|
    decreases j2
  {
    var r := if j2 < |line| && line[j2] != '\n' then TryThird(line, j2, Span(line, j2 + 1, IsWordChar)) else None;
    if r.Some? || j2 == lo then r else TrySecond(line, lo, j2 - 1)
  }

  /** `^\s*\w*\.\w*.\w*.\s*=`: the text after the `=` of the first match in
      backtracking order. */
  function ValueGroup(line: string): (r: Option<string>) {
    var e := SegmentEnd(line);
    if e < |line| && line[e] == '.' then TrySecond(line, e + 1, Span(line, e + 1, IsWordChar)) else None
  }

  predicate IsValueChar(c: char) { c != '#' && c != '\n' }

  /** `\s*(?P<the_var_value>[^#\n]*)` after the `=`. */
  function ValueText(after: string): (v: string)
    ensures |v| <= |TrimLeft(after)| && v == TrimLeft(after)[..|v|]
    ensures '#' !in v && '\n' !in v
    ensures |v| == |TrimLeft(after)| || !IsValueChar(TrimLeft(after)[|v|])
  {
    var t := TrimLeft(after);
    t[..Span(t, 0, IsValueChar)]
  }

  /** Both groups are read before the pair is appended; a failed match raises. */
  function Record(line: string, slot: Slot): Filing {
    match (NameGroup(line), ValueGroup(line))
    case (Some(name), Some(after)) => File(slot, Entry(name, ValueText(after)))
    case _ => Raise
  }

  /** One line. Comments and lines of other boards are skipped; an upload line is
      recorded as one, otherwise a build line, and any other line is skipped. */
  function ClassifyBoardLine(line: string, board: string): (r: Filing)
    ensures r == Ignore <==>
      IsConfigComment(line) || !IsBoardLine(line, board) || (!InSection(line, "upload") && !InSection(line, "build"))
    ensures r != Ignore ==> (r == Raise <==> NameGroup(line).None? || ValueGroup(line).None?)
    ensures r.File? ==>
      r.slot == (if InSection(line, "upload") then ToUpload else ToBuild) &&
      r.entry == Entry(NameGroup(line).value, ValueText(ValueGroup(line).value))
  {
    if IsConfigComment(line) || !IsBoardLine(line, board) then Ignore
    else if InSection(line, "upload") then Record(line, ToUpload)
    else if InSection(line, "build") then Record(line, ToBuild)
    else Ignore
  }

  /** What each line of boards.txt does, in order. */
  function BoardFilings(lines: seq<string>, board: string): (fs: seq<Filing>)
    ensures |fs| == |lines|
    ensures forall k :: 0 <= k < |lines| ==> fs[k] == ClassifyBoardLine(lines[k], board)
  {
    EachLine(lines, l => ClassifyBoardLine(l, board))
  }

  /** The constructor's loop over the lines of boards.txt. */
  method ParseBoardsFile(lines: seq<string>, board: string, upload: EntryList, build: EntryList)
    returns (raised: bool)
    modifies upload, build
    ensures raised <==> Raise in BoardFilings(lines, board)
    ensures upload != build ==>
      var fs := BoardFilings(lines, board);
      upload.items == old(upload.items) + Targeted(fs[..Processed(fs)], ToUpload) &&
      build.items == old(build.items) + Targeted(fs[..Processed(fs)], ToBuild)
    ensures upload == build ==>
      var fs := BoardFilings(lines, board);
      upload.items == old(upload.items) + Entries(fs[..Processed(fs)])
  {
    var classify := l => ClassifyBoardLine(l, board);
    assert BoardFilings(lines, board) == EachLine(lines, classify);
    raised := FileLines(lines, classify, upload, build);
  }

  /** The two sections exclude each other, so testing upload first decides nothing. */
  lemma SectionsExclusive(line: string)
    ensures !(InSection(line, "upload") && InSection(line, "build"))
  {
    var t := line[SegmentEnd(line)..];
    if InSection(line, "upload") {
      assert t[..8][1] == t[1] == 'u';
    }
  }

  /** A board name that does not start with whitespace is found only right after the
      indentation. */
  lemma BoardAfterIndent(line: string, board: string)
    requires board == [] || !IsSpace(board[0])
    ensures IsBoardLine(line, board) <==> StartsWith(line[Indent(line)..], board + ".")
  {
    if IsBoardLine(line, board) {
      var w :| 0 <= w <= Indent(line) && StartsWith(line[w..], board + ".");
      assert line[w..][..|board| + 1][0] == line[w] == (board + ".")[0];
      assert !IsSpace(line[w]);
    }
  }

  /** Every pair in the upload list comes from an upload line of the chosen board,
      every pair in the build list from a build line of it. */
  lemma EntriesFromBoardLines(lines: seq<string>, board: string)
    ensures forall e :: e in Targeted(BoardFilings(lines, board), ToUpload) ==>
      exists i :: 0 <= i < |lines| && IsBoardLine(lines[i], board) && InSection(lines[i], "upload")
    ensures forall e :: e in Targeted(BoardFilings(lines, board), ToBuild) ==>
      exists i :: 0 <= i < |lines| && IsBoardLine(lines[i], board) && InSection(lines[i], "build") &&
                  !InSection(lines[i], "upload")
  {
    var fs := BoardFilings(lines, board);
    forall e | e in Targeted(fs, ToUpload)
      ensures exists i :: 0 <= i < |lines| && IsBoardLine(lines[i], board) && InSection(lines[i], "upload")
    {
      var i :| 0 <= i < |fs| && fs[i] == File(ToUpload, e);
    }
    forall e | e in Targeted(fs, ToBuild)
      ensures exists i :: 0 <= i < |lines| && IsBoardLine(lines[i], board) && InSection(lines[i], "build") &&
                          !InSection(lines[i], "upload")
    {
      var i :| 0 <= i < |fs| && fs[i] == File(ToBuild, e);
    }
  }

  /** The two sections are nonempty words. */
  lemma SectionWord(section: string)
    requires section == "upload" || section == "build"
    ensures section != [] && All(section, IsWordChar)
  {
  }

  lemma Regroup(head: string, name: string, gap: string, after: string)
    ensures head + name + gap + "=" + after == head + (name + (gap + "=" + after))
  {
  }

  /** The first segment of the line ends at `e` and the second at `r`, both followed by
      a dot. */
  ghost predicate Segments(line: string, e: nat, r: nat) {
    SegmentEnd(line) == e && e < r < |line| && line[e] == '.' && Span(line, e + 1, IsWordChar) == r &&
    line[r] == '.'
  }

  /** A line of the board, not a comment, whose second segment is `section`. */
  ghost predicate HeadAt(line: string, board: string, section: string, e: nat, r: nat) {
    Segments(line, e, r) && !IsConfigComment(line) && IsBoardLine(line, board) && InSection(line, section)
  }

  /** The first two segments of a line `indent board.section.rest`. */
  lemma BoardHead(indent: string, board: string, section: string, rest: string)
    requires All(indent, IsSpace) && board != [] && All(board, IsWordChar)
    requires section != [] && All(section, IsWordChar)
    ensures var line := indent + board + "." + section + "." + rest;
            var e := |indent| + |board|;
            HeadAt(line, board, section, e, e + 1 + |section|) && line[e + 1 + |section| + 1..] == rest
  {
    var head := indent + board + "." + section + ".";
    var line := head + rest;
    var e := |indent| + |board|;
    OccursConcat(head, rest);
    OccursSlice(line, |head|, rest);
    HeadChars(line, head, indent, board, section);
    HeadPrefixes(line, head, indent, board, section);
    HeadParts(line, indent, board, section);
  }

  /** A line in which the indentation, the board, a dot, the section and a dot follow
      one another. */
  lemma HeadParts(line: string, indent: string, board: string, section: string)
    requires All(indent, IsSpace) && board != [] && All(board, IsWordChar)
    requires section != [] && All(section, IsWordChar)
    requires Occurs(line, 0, indent) && Occurs(line, |indent|, board)
    requires Occurs(line, |indent| + |board| + 1, section) && |indent| + |board| + 1 + |section| < |line|
    requires line[|indent| + |board|] == '.' && line[|indent| + |board| + 1 + |section|] == '.'
    requires StartsWith(line[|indent|..], board + ".")
    requires StartsWith(line[|indent| + |board|..], "." + section + ".")
    ensures HeadAt(line, board, section, |indent| + |board|, |indent| + |board| + 1 + |section|)
  {
    var e := |indent| + |board|;
    HeadSpans(line, indent, board, section);
    assert StartsWith(line[Indent(line)..], board + ".");
  }

  lemma WordNotSpace(c: char)
    requires IsWordChar(c)
    ensures !IsSpace(c) && c != '#'
  {
  }

  /** Where the runs of the head stop. */
  lemma HeadSpans(line: string, indent: string, board: string, section: string)
    requires All(indent, IsSpace) && board != [] && All(board, IsWordChar)
    requires section != [] && All(section, IsWordChar)
    requires Occurs(line, 0, indent) && Occurs(line, |indent|, board)
    requires Occurs(line, |indent| + |board| + 1, section) && |indent| + |board| + 1 + |section| < |line|
    requires line[|indent| + |board|] == '.' && line[|indent| + |board| + 1 + |section|] == '.'
    ensures Indent(line) == |indent| && line[|indent|] == board[0]
    ensures SegmentEnd(line) == |indent| + |board|
    ensures Span(line, |indent| + |board| + 1, IsWordChar) == |indent| + |board| + 1 + |section|
  {
    WordRun(line, |indent| + |board| + 1, section);
    assert line[|indent| + 0] == board[0];
    IndentBefore(line, indent);
    WordRun(line, |indent|, board);
  }

  lemma IndentBefore(line: string, indent: string)
    requires All(indent, IsSpace) && Occurs(line, 0, indent) && |indent| < |line| && IsWordChar(line[|indent|])
    ensures Indent(line) == |indent|
  {
    WordNotSpace(line[|indent|]);
    SpanOver(line, 0, indent, IsSpace);
  }

  lemma WordRun(line: string, i: nat, word: string)
    requires All(word, IsWordChar) && Occurs(line, i, word) && i + |word| < |line| && line[i + |word|] == '.'
    ensures Span(line, i, IsWordChar) == i + |word|
  {
    SpanOver(line, i, word, IsWordChar);
  }

  /** Where the parts of `indent board.section.` lie in a line that starts with it. */
  lemma HeadChars(line: string, head: string, indent: string, board: string, section: string)
    requires head == indent + board + "." + section + "." && Occurs(line, 0, head)
    ensures Occurs(line, 0, indent) && Occurs(line, |indent|, board) &&
            Occurs(line, |indent| + |board| + 1, section) &&
            line[|indent| + |board|] == '.' && line[|indent| + |board| + 1 + |section|] == '.'
  {
    var e := |indent| + |board|;
    assert forall k :: 0 <= k < |indent| ==> line[k] == indent[k] by {
      forall k | 0 <= k < |indent| ensures line[k] == indent[k] { assert line[0 + k] == head[k]; }
    }
    assert forall k :: 0 <= k < |board| ==> line[|indent| + k] == board[k] by {
      forall k | 0 <= k < |board| ensures line[|indent| + k] == board[k] { assert line[0 + (|indent| + k)] == head[|indent| + k]; }
    }
    assert forall k :: 0 <= k < |section| ==> line[e + 1 + k] == section[k] by {
      forall k | 0 <= k < |section| ensures line[e + 1 + k] == section[k] { assert line[0 + (e + 1 + k)] == head[e + 1 + k]; }
    }
    assert line[0 + e] == head[e];
    assert line[0 + (e + 1 + |section|)] == head[e + 1 + |section|];
  }

  /** The board with its dot follows the indentation, the section with its dots
      follows the board. */
  lemma HeadPrefixes(line: string, head: string, indent: string, board: string, section: string)
    requires head == indent + board + "." + section + "." && Occurs(line, 0, head)
    ensures StartsWith(line[|indent|..], board + ".")
    ensures StartsWith(line[|indent| + |board|..], "." + section + ".")
  {
    var e := |indent| + |board|;
    forall k | 0 <= k < |board| + 1 ensures line[|indent|..][k] == (board + ".")[k] {
      assert line[0 + (|indent| + k)] == head[|indent| + k];
    }
    forall k | 0 <= k < |section| + 2 ensures line[e..][k] == ("." + section + ".")[k] {
      assert line[0 + (e + k)] == head[e + k];
    }
    assert line[|indent|..][..|board| + 1] == board + ".";
    assert line[e..][..|section| + 2] == "." + section + ".";
  }

  /** The third segment of a line whose first two are known. */
  lemma NameOfRest(line: string, e: nat, r: nat, name: string)
    requires Segments(line, e, r)
    requires Span(line, r + 1, IsWordChar) == r + 1 + |name| && line[r + 1..r + 1 + |name|] == name
    ensures NameGroup(line) == Some(name)
  {
    NameGroupAt(line, e, r);
  }

  /** With the first two segments ending in dots, the name is the word run after them. */
  lemma NameGroupAt(line: string, e: nat, r: nat)
    requires Segments(line, e, r)
    ensures NameGroup(line) == Some(line[r + 1..Span(line, r + 1, IsWordChar)])
  {
  }

  /** The third `\w*` of the value pattern, tried from the end of the name. */
  lemma ValueOfRest(line: string, r: nat, name: string, gap: string, after: string)
    requires name != [] && r + 1 + |name| < |line| && IsWordChar(line[r + |name|])
    requires line[r + 1 + |name|..] == gap + "=" + after && All(gap, IsSpace) && '\n' !in gap
    ensures TryThird(line, r, r + 1 + |name|) == Some(AssignedText(gap, after))
  {
    var n1 := r + 1 + |name|;
    if gap != [] {
      ValueAtGap(line, n1, gap, after);
      ThirdFirst(line, r, n1);
    } else {
      assert gap + "=" + after == "=" + after;
      ValueAtEquals(line, n1, after);
      if AfterEquals(after, 0).Some? {
        ThirdFirst(line, r, n1);
      } else {
        ThirdNext(line, r, n1);
        ValueBeforeEquals(line, n1 - 1, after);
        ThirdFirst(line, r, n1 - 1);
      }
    }
  }

  lemma ThirdFirst(line: string, j2: nat, j4: nat)
    requires j2 < j4 <= |line| && ValueAfter(line, j4).Some?
    ensures TryThird(line, j2, j4) == ValueAfter(line, j4)
  {
  }

  lemma ThirdNext(line: string, j2: nat, j4: nat)
    requires j2 + 1 < j4 <= |line| && ValueAfter(line, j4).None?
    ensures TryThird(line, j2, j4) == TryThird(line, j2, j4 - 1)
  {
  }

  /** A line of the board, in a section, whose groups both match. */
  lemma RecordedAs(line: string, board: string, section: string, name: string, value: string)
    requires !IsConfigComment(line) && IsBoardLine(line, board)
    requires section == "upload" || section == "build"
    requires InSection(line, section) && NameGroup(line) == Some(name) && ValueGroup(line) == Some(value)
    ensures ClassifyBoardLine(line, board) ==
            File(if section == "upload" then ToUpload else ToBuild, Entry(name, ValueText(value)))
  {
    SectionsExclusive(line);
  }

  /** The value pattern tries the longest second segment first; when that is the
      whole run up to the dot, its first success is the third segment's. */
  lemma ValueGroupAt(line: string, e: nat, r: nat, j4: nat, value: string)
    requires SegmentEnd(line) == e && e < r < j4 <= |line| && line[e] == '.'
    requires Span(line, e + 1, IsWordChar) == r && line[r] == '.'
    requires Span(line, r + 1, IsWordChar) == j4 && TryThird(line, r, j4) == Some(value)
    ensures ValueGroup(line) == Some(value)
  {
    SecondFirst(line, e + 1, r);
  }

  lemma SecondFirst(line: string, lo: nat, j2: nat)
    requires lo <= j2 < |line| && line[j2] != '\n'
    requires TryThird(line, j2, Span(line, j2 + 1, IsWordChar)).Some?
    ensures TrySecond(line, lo, j2) == TryThird(line, j2, Span(line, j2 + 1, IsWordChar))
  {
  }

  /** A gap's first space is the `.`: the `=` after the gap is found. */
  lemma ValueAtGap(line: string, j: nat, gap: string, after: string)
    requires j < |line| && line[j..] == gap + "=" + after
    requires gap != [] && All(gap, IsSpace) && '\n' !in gap
    ensures ValueAfter(line, j) == Some(after)
  {
    assert line[j] == line[j..][0] == gap[0] && gap[0] in gap;
    AfterEqualsShift(line, j + 1);
    assert line[j + 1..] == line[j..][1..] == gap[1..] + "=" + after;
    GapThenEquals(gap[1..], after);
  }

  /** The `=` itself is the `.`: a second `\s*=` has to follow it. */
  lemma ValueAtEquals(line: string, j: nat, after: string)
    requires j < |line| && line[j..] == "=" + after
    ensures ValueAfter(line, j) == AfterEquals(after, 0)
  {
    assert line[j] == line[j..][0] == '=';
    AfterEqualsShift(line, j + 1);
    assert line[j + 1..] == line[j..][1..] == after;
  }

  /** The character before the `=` is the `.`. */
  lemma ValueBeforeEquals(line: string, j: nat, after: string)
    requires j + 1 < |line| && line[j] != '\n' && line[j + 1..] == "=" + after
    ensures ValueAfter(line, j) == Some(after)
  {
    AfterEqualsShift(line, j + 1);
    GapThenEquals([], after);
    assert [] + "=" + after == "=" + after;
  }

  /** No `.\s*=` starts inside a run of name characters. */
  lemma {:induction false} ThirdFails(line: string, j2: nat, j4: nat)
    requires j2 < j4 && j4 + 1 < |line|
    requires forall k :: j2 + 2 <= k <= j4 + 1 ==> IsNameChar(line[k])
    ensures TryThird(line, j2, j4) == None
    decreases j4
  {
    SpanAt(line, j4 + 1, j4 + 1, IsSpace);
    if j4 > j2 + 1 {
      ThirdFails(line, j2, j4 - 1);
    }
  }

  /** Every way to split a run of name characters between the second and the third
      `\w*` fails when the run goes on past the end of the third one. */
  lemma {:induction false} SecondFails(line: string, lo: nat, j2: nat, h: nat)
    requires lo <= j2 < h && h + 1 < |line| && !IsWordChar(line[h])
    requires forall k :: lo + 2 <= k <= h + 1 ==> IsNameChar(line[k])
    ensures TrySecond(line, lo, j2) == None
    decreases j2
  {
    var j4 := Span(line, j2 + 1, IsWordChar);
    SpanBound(line, j2 + 1, h, IsWordChar);
    ThirdFails(line, j2, j4);
    if j2 > lo {
      SecondFails(line, lo, j2 - 1, h);
    }
  }

  /** The value a line `name gap = after` gives: with a gap, its first space is the
      `.` and `after` is the value; without one, the `=` itself is the `.`, and unless
      `after` starts with a second `\s*=`, the pattern backtracks one character into
      the name and finds the first `=`. */
  function AssignedText(gap: string, after: string): string {
    if gap == [] && AfterEquals(after, 0).Some? then AfterEquals(after, 0).value else after
  }

  /** A typical upload or build line files its third segment under the value after
      the `=`, cut at a `#` or the newline. */
  lemma BoardVariableFiled(indent: string, board: string, section: string, name: string, gap: string, after: string)
    requires All(indent, IsSpace) && board != [] && All(board, IsWordChar)
    requires section == "upload" || section == "build"
    requires name != [] && All(name, IsWordChar) && All(gap, IsSpace) && '\n' !in gap
    ensures ClassifyBoardLine(indent + board + "." + section + "." + name + gap + "=" + after, board) ==
            File(if section == "upload" then ToUpload else ToBuild, Entry(name, ValueText(AssignedText(gap, after))))
  {
    var rest := name + (gap + "=" + after);
    var line := indent + board + "." + section + "." + rest;
    Regroup(indent + board + "." + section + ".", name, gap, after);
    SectionWord(section);
    BoardHead(indent, board, section, rest);
    var e := |indent| + |board|;
    var r := e + 1 + |section|;
    ThreeSegments(line, board, section, e, r, name, gap, after);
  }

  /** A line of the board, in a section, whose rest is `name gap = after`. */
  lemma ThreeSegments(line: string, board: string, section: string, e: nat, r: nat,
                      name: string, gap: string, after: string)
    requires section == "upload" || section == "build"
    requires HeadAt(line, board, section, e, r) && line[r + 1..] == name + (gap + "=" + after)
    requires name != [] && All(name, IsWordChar) && All(gap, IsSpace) && '\n' !in gap
    ensures ClassifyBoardLine(line, board) ==
            File(if section == "upload" then ToUpload else ToBuild, Entry(name, ValueText(AssignedText(gap, after))))
  {
    ThreeGroups(line, e, r, name, gap, after);
    RecordedAs(line, board, section, name, AssignedText(gap, after));
  }

  /** The name and the value of a line whose first two segments are known. */
  lemma ThreeGroups(line: string, e: nat, r: nat, name: string, gap: string, after: string)
    requires Segments(line, e, r) && line[r + 1..] == name + (gap + "=" + after)
    requires name != [] && All(name, IsWordChar) && All(gap, IsSpace) && '\n' !in gap
    ensures NameGroup(line) == Some(name) && ValueGroup(line) == Some(AssignedText(gap, after))
  {
    var tail := gap + "=" + after;
    assert tail[0] == if gap == [] then '=' else gap[0];
    assert !IsWordChar(tail[0]);
    NameOfLine(line, e, r, name, tail);
    AfterName(line, r, name, tail);
    ValueOfLine(line, e, r, name, gap, after);
  }

  lemma NameOfLine(line: string, e: nat, r: nat, name: string, tail: string)
    requires Segments(line, e, r) && line[r + 1..] == name + tail
    requires All(name, IsWordChar) && tail != [] && !IsWordChar(tail[0])
    ensures NameGroup(line) == Some(name)
  {
    RunAfter(line, r + 1, name, tail, IsWordChar);
    NameOfRest(line, e, r, name);
  }

  lemma ValueOfLine(line: string, e: nat, r: nat, name: string, gap: string, after: string)
    requires Segments(line, e, r)
    requires name != [] && r + 1 + |name| < |line| && Span(line, r + 1, IsWordChar) == r + 1 + |name|
    requires IsWordChar(line[r + |name|]) && line[r + 1 + |name|..] == gap + "=" + after
    requires All(gap, IsSpace) && '\n' !in gap
    ensures ValueGroup(line) == Some(AssignedText(gap, after))
  {
    ValueOfRest(line, r, name, gap, after);
    ValueGroupAt(line, e, r, r + 1 + |name|, AssignedText(gap, after));
  }

  /** Where a name that starts a suffix ends. */
  lemma AfterName(line: string, r: nat, name: string, tail: string)
    requires r < |line| && line[r + 1..] == name + tail && name != [] && All(name, IsWordChar)
    requires tail != [] && !IsWordChar(tail[0])
    ensures r + 1 + |name| < |line| && Span(line, r + 1, IsWordChar) == r + 1 + |name|
    ensures IsWordChar(line[r + |name|]) && line[r + 1 + |name|..] == tail
  {
    RunAfter(line, r + 1, name, tail, IsWordChar);
    assert line[r + |name|] == line[r + 1..r + 1 + |name|][|name| - 1];
  }

  /** A fourth segment under upload or build leaves the value pattern without a
      match, and the line raises. */
  lemma FourSegmentsRaise(indent: string, board: string, section: string, a: string, b: string,
                          gap: string, after: string)
    requires All(indent, IsSpace) && board != [] && All(board, IsWordChar)
    requires section == "upload" || section == "build"
    requires a != [] && All(a, IsWordChar) && b != [] && All(b, IsWordChar)
    ensures ClassifyBoardLine(indent + board + "." + section + "." + a + "." + b + gap + "=" + after, board) == Raise
  {
    var tail := "." + b + gap + "=" + after;
    var line := indent + board + "." + section + "." + (a + tail);
    RegroupDotted(indent + board + "." + section + ".", a, b, gap, after);
    SectionWord(section);
    BoardHead(indent, board, section, a + tail);
    var e := |indent| + |board|;
    FourSegments(line, board, section, e, e + 1 + |section|, a, tail);
  }

  lemma RegroupDotted(head: string, a: string, b: string, gap: string, after: string)
    ensures head + a + "." + b + gap + "=" + after == head + (a + ("." + b + gap + "=" + after))
  {
  }

  /** A line of the board, in a section, whose rest is `a.b...`. */
  lemma FourSegments(line: string, board: string, section: string, e: nat, r: nat, a: string, tail: string)
    requires section == "upload" || section == "build"
    requires HeadAt(line, board, section, e, r) && line[r + 1..] == a + tail
    requires a != [] && All(a, IsWordChar) && |tail| >= 2 && tail[0] == '.' && IsWordChar(tail[1])
    ensures ClassifyBoardLine(line, board) == Raise
  {
    var h := r + 1 + |a|;
    AfterName(line, r, a, tail);
    assert line[h + 1] == line[h..][1] == tail[1];
    NoValueGroup(line, e, r, h);
    RaisesWithoutValue(line, board, section);
  }

  /** When the third segment is followed by a dot and a word character, the value
      pattern has no match. */
  lemma NoValueGroup(line: string, e: nat, r: nat, h: nat)
    requires Segments(line, e, r) && r < h && h + 1 < |line|
    requires Span(line, r + 1, IsWordChar) == h && line[h] == '.' && IsWordChar(line[h + 1])
    ensures ValueGroup(line) == None
  {
    NameRun(line, e + 1, r, h);
    SecondFails(line, e + 1, r, h);
  }

  /** Two word runs joined by a dot, and the dot and word character after them. */
  lemma NameRun(line: string, lo: nat, r: nat, h: nat)
    requires lo <= r < h && h + 1 < |line| && Span(line, lo, IsWordChar) == r && line[r] == '.'
    requires Span(line, r + 1, IsWordChar) == h && line[h] == '.' && IsWordChar(line[h + 1])
    ensures forall k :: lo + 2 <= k <= h + 1 ==> IsNameChar(line[k])
  {
    forall k | lo + 2 <= k <= h + 1 ensures IsNameChar(line[k]) {
      if k < r {
        assert IsWordChar(line[k]);
      } else if r < k < h {
        assert IsWordChar(line[k]);
      }
    }
  }

  /** A line of the board in a section whose value pattern fails raises. */
  lemma RaisesWithoutValue(line: string, board: string, section: string)
    requires !IsConfigComment(line) && IsBoardLine(line, board)
    requires section == "upload" || section == "build"
    requires InSection(line, section) && ValueGroup(line) == None
    ensures ClassifyBoardLine(line, board) == Raise
  {
    SectionsExclusive(line);
  }
}

/** The line-by-line scan of a merged Arduino sketch that collects the text of every
    function declarator: the regular expressions of `fix_sketch` as exact string
    predicates, the comment stripper, the scanner state machine, and the split of the
    collected text into declarations. */
module SketchLines {
  import opened Text
  import opened Config

  predicate IsNotNewline(c: char) { c != '\n' }
  predicate IsOpenBrace(c: char) { c == '{' }
  predicate IsBrace(c: char) { c == '{' || c == '}' }

  /** How far `.*` reaches from `i`: the end of the newline-free run. */
  function SegmentEnd(line: string, i: nat): nat
    requires i <= |line|
  {
    Span(line, i, IsNotNewline)
  }

  /** Where `$` matches: at the end, or just before a final newline. */
  predicate AtLineEnd(line: string, e: nat) {
    e == |line| || (e + 1 == |line| && line[e] == '\n')
  }

  /** The end a `$` can match at after `\*\/`, which cannot precede a newline. */
  function LineEnd(line: string): nat {
    if |line| > 0 && line[|line| - 1] == '\n' then |line| - 1 else |line|
  }

  /** `^\s*(//.*|/\*.*\*\/$)`: nothing but a line comment, or a block comment that
      closes exactly at the end of the line. */
  predicate IsCommentOnlyLine(line: string) {
    var w := Indent(line);
    var e := LineEnd(line);
    StartsWith(line[w..], "//")
    || (StartsWith(line[w..], "/*") && w + 4 <= e && line[e - 2..e] == "*/"
        && All(line[w + 2..e - 2], IsNotNewline))
  }

  /** `^\s*#`: a preprocessor directive. */
  predicate IsPreprocessorLine(line: string) {
    var w := Indent(line);
    w < |line| && line[w] == '#'
  }

  /** `^\s*$`: a whitespace-only line. */
  predicate IsBlankLine(line: string) {
    Indent(line) == |line|
  }

  /** The three kinds of line the scan skips before looking at anything else. */
  predicate Ignored(line: string) {
    IsCommentOnlyLine(line) || IsPreprocessorLine(line) || IsBlankLine(line)
  }

  /** `^\s*\}`: the line starts with a closing brace. */
  predicate StartsWithCloseBrace(line: string) {
    var w := Indent(line);
    w < |line| && line[w] == '}'
  }

  /** A character `.*` passes over on its way to a `;`. */
  predicate IsBeforeSemicolon(c: char) { c != '\n' && c != ';' }

  /** `.*;` from `i`: a semicolon before the next newline. */
  predicate SemicolonAhead(line: string, i: nat)
    requires i <= |line|
  {
    var e := Span(line, i, IsBeforeSemicolon);
    e < |line| && line[e] == ';'
  }

  /** `\{*[^}].*;` from `j`, with the backtracking of `\{*`: after some run of open
      braces comes a character other than `}`, and then a semicolon on the same line. */
  predicate StatementAfterBraces(line: string, j: nat)
    requires j <= |line|
    decreases |line| - j
  {
    j < |line|
    && ((line[j] != '}' && SemicolonAhead(line, j + 1))
        || (line[j] == '{' && StatementAfterBraces(line, j + 1)))
  }

  /** `^\s*\{*[^}].*;` with the backtracking of `\s*`: the leading whitespace may be
      matched up to any point `k`. */
  predicate StatementFrom(line: string, k: nat)
    requires k <= Indent(line)
    decreases Indent(line) - k
  {
    StatementAfterBraces(line, k) || (k < Indent(line) && StatementFrom(line, k + 1))
  }

  /** The statement test: a line ending a statement is not a declarator. */
  predicate EndsStatement(line: string) {
    StatementFrom(line, 0)
  }

  lemma {:induction false} NoSemicolonAfterBraces(line: string, j: nat)
    requires j <= |line| && ';' !in line
    ensures !StatementAfterBraces(line, j)
    decreases |line| - j
  {
    if j < |line| {
      var e := Span(line, j + 1, IsBeforeSemicolon);
      if e < |line| {
        assert line[e] in line;
      }
      NoSemicolonAfterBraces(line, j + 1);
    }
  }

  /** A line without a semicolon never ends a statement. */
  lemma {:induction false} NoSemicolonNoStatement(line: string, k: nat)
    requires k <= Indent(line) && ';' !in line
    ensures !StatementFrom(line, k)
    decreases Indent(line) - k
  {
    NoSemicolonAfterBraces(line, k);
    if k < Indent(line) {
      NoSemicolonNoStatement(line, k + 1);
    }
  }

  /** A line read from a file: a newline can only be its last character. */
  predicate NoInnerNewline(line: string) {
    forall k :: 0 <= k < |line| - 1 ==> line[k] != '\n'
  }

  /** A semicolon ahead of `j` is ahead of any earlier `i` with no newline in between. */
  lemma {:induction false} SemicolonAheadEarlier(line: string, i: nat, j: nat)
    requires i <= j <= |line| && SemicolonAhead(line, j)
    requires forall k :: i <= k < j ==> line[k] != '\n'
    ensures SemicolonAhead(line, i)
    decreases j - i
  {
    if i < j && line[i] != ';' {
      SemicolonAheadEarlier(line, i + 1, j);
    }
  }

  /** A match of `\{*[^}].*;` from `j`, after text free of `}`, means the line does not
      start with `}` and has a `;` after its first character. */
  lemma {:induction false} AfterBracesEarlier(line: string, j: nat)
    requires NoInnerNewline(line) && j <= |line| && StatementAfterBraces(line, j)
    requires forall k :: 0 <= k < j ==> line[k] != '}'
    ensures |line| > 0 && line[0] != '}' && SemicolonAhead(line, 1)
    decreases |line| - j
  {
    if line[j] != '}' && SemicolonAhead(line, j + 1) {
      SemicolonAheadEarlier(line, 1, j + 1);
    } else {
      AfterBracesEarlier(line, j + 1);
    }
  }

  lemma {:induction false} StatementFromEarlier(line: string, k: nat)
    requires NoInnerNewline(line) && k <= Indent(line) && StatementFrom(line, k)
    ensures |line| > 0 && line[0] != '}' && SemicolonAhead(line, 1)
    decreases Indent(line) - k
  {
    if StatementAfterBraces(line, k) {
      AfterBracesEarlier(line, k);
    } else {
      StatementFromEarlier(line, k + 1);
    }
  }

  /** The statement test reads simply: the line does not start with `}` and holds a `;`
      after its first character. The backtracking of `\s*` and `\{*` changes nothing
      on a line whose only newline is its last character. */
  lemma StatementTest(line: string)
    requires NoInnerNewline(line)
    ensures EndsStatement(line) <==> |line| > 0 && line[0] != '}' && SemicolonAhead(line, 1)
  {
    if EndsStatement(line) {
      StatementFromEarlier(line, 0);
    }
  }

  // ---------------------------------------------------------------------------------
  // Comment stripping: `(/\*.*\*\/)|(/\*.*$)|(//.*$)|(/\*.*$)|(^.*\*\/)` replaced by ''.

  /** A `*` `/` pair starts at `k`. */
  predicate CloserAt(line: string, k: nat)
    requires k + 2 <= |line|
  {
    line[k] == '*' && line[k + 1] == '/'
  }

  /** The last `*` `/` pair starting in `lo..q`: where greedy `.*\*\/` stops. */
  function LastCloseIn(line: string, lo: nat, q: int): (r: Option<nat>)
    requires q + 2 <= |line|
    ensures r.Some? ==> lo <= r.value <= q && CloserAt(line, r.value)
    ensures r.Some? ==> forall k: nat :: r.value < k <= q ==> !CloserAt(line, k)
    ensures r.None? <==> forall k: nat :: lo <= k <= q ==> !CloserAt(line, k)
    decreases q - lo + 1
  {
    if q < lo then None
    else if CloserAt(line, q) then Some(q)
    else LastCloseIn(line, lo, q - 1)
  }

  /** Where a match of the comment pattern that starts at `p` ends, trying the
      alternatives in order; `None` when none matches there. */
  function CommentMatchAt(line: string, p: nat): (r: Option<nat>)
    requires p < |line|
    ensures r.Some? ==> p < r.value <= |line|
  {
    var opens := StartsWith(line[p..], "/*");
    var closed := if opens then LastCloseIn(line, p + 2, SegmentEnd(line, p + 2) - 2) else None;
    if closed.Some? then Some(closed.value + 2)
    else if (opens || StartsWith(line[p..], "//")) && AtLineEnd(line, SegmentEnd(line, p + 2)) then
      Some(SegmentEnd(line, p + 2))
    else if p == 0 then
      match LastCloseIn(line, 0, SegmentEnd(line, 0) - 2)
      case Some(k) => Some(k + 2)
      case None => None
    else None
  }

  /** `re.sub` from position `p`: every match is removed, every other character kept. */
  function StripCommentsFrom(line: string, p: nat): string
    requires p <= |line|
    decreases |line| - p
  {
    if p == |line| then ""
    else match CommentMatchAt(line, p)
      case Some(e) => StripCommentsFrom(line, e)
      case None => [line[p]] + StripCommentsFrom(line, p + 1)
  }

  function StripComments(line: string): string {
    StripCommentsFrom(line, 0)
  }

  /** No `*` `/` pair anywhere in the line. */
  predicate NoCloser(line: string) {
    forall k: nat :: k + 2 <= |line| ==> !CloserAt(line, k)
  }

  /** No alternative of the comment pattern matches at a character other than `/`
      when the line has no `*` `/` pair. */
  lemma NoMatchAt(line: string, p: nat)
    requires p < |line| && line[p] != '/' && NoCloser(line)
    ensures CommentMatchAt(line, p).None?
  {
    assert !StartsWith(line[p..], "/*") && !StartsWith(line[p..], "//") by {
      if |line[p..]| >= 2 { assert line[p..][..2][0] == line[p]; }
    }
  }

  /** Text without a slash has no comment to remove. */
  lemma {:induction false} StripCommentsPlain(line: string, p: nat)
    requires p <= |line| && '/' !in line
    ensures StripCommentsFrom(line, p) == line[p..]
    decreases |line| - p
  {
    if p < |line| {
      assert line[p] in line;
      forall k: nat | k + 2 <= |line| ensures !CloserAt(line, k) {
        assert line[k + 1] in line;
      }
      NoMatchAt(line, p);
      StripCommentsPlain(line, p + 1);
      assert line[p..] == [line[p]] + line[p + 1..];
    }
  }

  /** A line comment after a closing brace is removed together with the `//`; the
      space before it and the final newline are kept. */
  lemma StripBraceComment(text: string)
    requires forall c :: c in text ==> c != '/' && c != '*' && c != '\n'
    ensures StripComments("} //" + text + "\n") == "} \n"
  {
    var line := "} //" + text + "\n";
    var e := |line| - 1;
    forall k | 0 <= k < |line| ensures line[k] != '*' {
      if 4 <= k < e { assert line[k] == text[k - 4] && line[k] in text; }
    }
    forall k | 4 <= k < e ensures line[k] != '\n' {
      assert line[k] == text[k - 4] && line[k] in text;
    }
    LineCommentMatch(line, 2, e);
    NoMatchAt(line, e);
    NoMatchAt(line, 1);
    NoMatchAt(line, 0);
    CopiedAt(line, e);
    CopiedAt(line, 1);
    CopiedAt(line, 0);
  }

  /** `//` at `p` followed by a newline-free run up to a final newline at `e`. */
  lemma LineCommentMatch(line: string, p: nat, e: nat)
    requires p + 2 <= e && e + 1 == |line| && line[e] == '\n' && line[p] == '/' && line[p + 1] == '/'
    requires forall k :: 0 <= k < |line| ==> line[k] != '*'
    requires forall k :: p + 2 <= k < e ==> line[k] != '\n'
    ensures CommentMatchAt(line, p) == Some(e)
  {
    assert line[p..][..2] == "//";
    SpanAt(line, p + 2, e, IsNotNewline);
  }

  /** A character where no comment match starts is kept. */
  lemma CopiedAt(line: string, p: nat)
    requires p < |line| && CommentMatchAt(line, p).None?
    ensures StripCommentsFrom(line, p) == [line[p]] + StripCommentsFrom(line, p + 1)
  {
  }

  // ---------------------------------------------------------------------------------
  // The scan.

  /** The scanner's state: inside a block comment, the brace depth, and the stripped
      lines collected so far. */
  datatype Scan = Scan(inComment: bool, braces: int, fragments: seq<string>)

  const Initial := Scan(false, 0, [])

  /** One iteration of the scanning loop. */
  function ScanLine(st: Scan, line: string): Scan {
    if Ignored(line) then st
    else if st.inComment && !Contains(line, "*/") then st
    else
      var inComment := Contains(line, "/*") && !Contains(line, "*/");
      var braces := st.braces + (if '{' in line then 1 else 0)
                              - (if StartsWithCloseBrace(line) then 1 else 0);
      if braces > 0 && ('{' !in line || braces > 1) then Scan(inComment, braces, st.fragments)
      else if EndsStatement(line) then Scan(inComment, braces, st.fragments)
      else Scan(inComment, braces, st.fragments + [Strip(StripComments(line))])
  }

  function ScanAll(st: Scan, lines: seq<string>): Scan
    decreases |lines|
  {
    if lines == [] then st else ScanAll(ScanLine(st, lines[0]), lines[1..])
  }

  lemma {:induction false} ScanAllAppend(st: Scan, a: seq<string>, b: seq<string>)
    ensures ScanAll(st, a + b) == ScanAll(ScanAll(st, a), b)
    decreases |a|
  {
    if a == [] {
      assert a + b == b;
    } else {
      assert (a + b)[1..] == a[1..] + b;
      ScanAllAppend(ScanLine(st, a[0]), a[1..], b);
    }
  }

  /** What one line does to the scanner. A comment-only, directive or blank line, and a
      line inside a block comment that it does not close, change nothing. Any other line
      leaves the comment flag set exactly when it opens a block comment without closing
      one, adds one to the depth for a `{` and takes one off for a leading `}` (so
      `} else {` keeps the depth), and adds a fragment exactly when the depth is at most
      0, or 1 on a line with a `{`, and the line does not end a statement. */
  lemma LineEffects(st: Scan, line: string)
    ensures Ignored(line) || (st.inComment && !Contains(line, "*/")) ==> ScanLine(st, line) == st
    ensures !Ignored(line) && (!st.inComment || Contains(line, "*/")) ==>
      var r := ScanLine(st, line);
      (r.inComment <==> Contains(line, "/*") && !Contains(line, "*/"))
      && r.braces == st.braces + (if '{' in line then 1 else 0) - (if StartsWithCloseBrace(line) then 1 else 0)
      && (r.fragments != st.fragments <==>
            (r.braces <= 0 || (r.braces == 1 && '{' in line)) && !EndsStatement(line))
      && (r.fragments != st.fragments ==> r.fragments == st.fragments + [Strip(StripComments(line))])
  {
    if !Ignored(line) && (!st.inComment || Contains(line, "*/")) {
      var r := ScanLine(st, line);
      if r.fragments != st.fragments {
        assert |r.fragments| == |st.fragments| + 1;
      }
    }
  }

  /** Lines the scan skips leave its whole state as it was, whatever that state is. */
  lemma {:induction false} IgnoredLinesKeepState(st: Scan, lines: seq<string>)
    requires forall i :: 0 <= i < |lines| ==> Ignored(lines[i])
    ensures ScanAll(st, lines) == st
    decreases |lines|
  {
    if lines != [] {
      IgnoredLinesKeepState(st, lines[1..]);
    }
  }

  predicate AllStripped(fragments: seq<string>) {
    forall i :: 0 <= i < |fragments| ==> Strip(fragments[i]) == fragments[i]
  }

  /** One line appends at most one fragment, and that fragment is stripped. */
  lemma ScanLineAppendsStripped(st: Scan, line: string)
    ensures var r := ScanLine(st, line);
      r.fragments == st.fragments
      || (|r.fragments| == |st.fragments| + 1 && r.fragments[..|st.fragments|] == st.fragments
          && Strip(r.fragments[|st.fragments|]) == r.fragments[|st.fragments|])
  {
    StripIsTrimmed(StripComments(line));
  }

  /** The scan only ever appends, and everything it appends is stripped: no fragment
      starts or ends with whitespace. */
  lemma {:induction false} ScanAppendsStripped(st: Scan, lines: seq<string>)
    ensures var r := ScanAll(st, lines);
      |st.fragments| <= |r.fragments| && r.fragments[..|st.fragments|] == st.fragments
      && AllStripped(r.fragments[|st.fragments|..])
    decreases |lines|
  {
    if lines != [] {
      var next := ScanLine(st, lines[0]);
      ScanLineAppendsStripped(st, lines[0]);
      ScanAppendsStripped(next, lines[1..]);
      StrippedExtension(st.fragments, next.fragments, ScanAll(next, lines[1..]).fragments);
    }
  }

  /** Extending by stripped fragments twice extends by stripped fragments. */
  lemma StrippedExtension(a: seq<string>, b: seq<string>, c: seq<string>)
    requires b == a || (|b| == |a| + 1 && b[..|a|] == a && Strip(b[|a|]) == b[|a|])
    requires |b| <= |c| && c[..|b|] == b && AllStripped(c[|b|..])
    ensures |a| <= |c| && c[..|a|] == a && AllStripped(c[|a|..])
  {
    assert c[..|a|] == c[..|b|][..|a|];
    forall i | |a| <= i < |c| ensures Strip(c[i]) == c[i] {
      if i >= |b| {
        assert c[i] == c[|b|..][i - |b|];
      } else {
        assert c[i] == c[..|b|][i] == b[i];
      }
    }
  }

  /** The scanning loop as the source runs it, statement by statement. */
  method ScanDeclarators(lines: seq<string>) returns (fragments: seq<string>)
    ensures fragments == ScanAll(Initial, lines).fragments
    ensures AllStripped(fragments)
  {
    var inComment := false;
    var braces := 0;
    fragments := [];
    var i := 0;
    while i < |lines|
      invariant 0 <= i <= |lines|
      invariant ScanAll(Scan(inComment, braces, fragments), lines[i..]) == ScanAll(Initial, lines)
    {
      var line := lines[i];
      ghost var before := Scan(inComment, braces, fragments);
      assert lines[i..][1..] == lines[i + 1..];
      i := i + 1;
      if IsCommentOnlyLine(line) || IsPreprocessorLine(line) || IsBlankLine(line) {
        continue;
      }
      if inComment {
        if Contains(line, "*/") {
          inComment := false;
        } else {
          continue;
        }
      }
      if Contains(line, "/*") {
        inComment := true;
      }
      if Contains(line, "*/") {
        inComment := false;
      }
      if '{' in line {
        braces := braces + 1;
      }
      if StartsWithCloseBrace(line) {
        braces := braces - 1;
      }
      if braces > 0 {
        if '{' in line {
          if braces > 1 {
            continue;
          }
        } else {
          continue;
        }
      }
      if EndsStatement(line) {
        continue;
      }
      fragments := fragments + [Strip(StripComments(line))];
    }
    ScanAppendsStripped(Initial, lines);
  }

  /** `''.join(fragments).rstrip('{}').split('{}')`. */
  function Declarations(fragments: seq<string>): (decls: seq<string>)
    ensures |decls| > 0
  {
    Split(TrimBracesRight(Join(fragments, "")), "{}")
  }

  /** `rstrip('{}')`. */
  function TrimBracesRight(s: string): (r: string)
    ensures |r| <= |s| && r == s[..|r|]
    ensures All(s[|r|..], IsBrace)
    ensures r == "" || !IsBrace(r[|r| - 1])
  {
    if |s| > 0 && IsBrace(s[|s| - 1]) then
      var r := TrimBracesRight(s[..|s| - 1]);
      TrimBracesStep(s, r);
      r
    else s
  }

  /** Dropping one more brace from the end keeps a trimmed prefix trimmed. */
  lemma TrimBracesStep(s: string, r: string)
    requires |s| > 0 && IsBrace(s[|s| - 1]) && |r| <= |s| - 1
    requires r == s[..|s| - 1][..|r|] && All(s[..|s| - 1][|r|..], IsBrace)
    ensures r == s[..|r|] && All(s[|r|..], IsBrace)
  {
    assert s[|r|..] == s[..|s| - 1][|r|..] + [s[|s| - 1]];
  }

  // ---------------------------------------------------------------------------------
  // What the scan makes of a conventionally laid out sketch.

  /** Text that can head a function: it starts the line with no whitespace, and holds
      no brace, semicolon, slash or newline and no leading `#`. */
  predicate PlainDeclarator(d: string) {
    d != "" && !IsSpace(d[0]) && d[0] != '#'
    && forall c :: c in d ==> c != '{' && c != '}' && c != ';' && c != '/' && c != '\n'
  }

  /** Code that neither opens nor closes a brace nor a block comment. */
  predicate QuietCode(line: string) {
    '{' !in line && !StartsWithCloseBrace(line) && !Contains(line, "/*") && !Contains(line, "*/")
  }

  /** A function: top-level lines (directives, blank lines, comments, statements such as
      global variables), the header `d{` on its own line, the body, and `}` alone. */
  datatype FunctionBlock = FunctionBlock(prelude: seq<string>, header: string, body: seq<string>)

  predicate WellFormedBlock(b: FunctionBlock) {
    PlainDeclarator(b.header)
    && (forall i :: 0 <= i < |b.prelude| ==>
          Ignored(b.prelude[i]) || (QuietCode(b.prelude[i]) && EndsStatement(b.prelude[i])))
    && (forall i :: 0 <= i < |b.body| ==> Ignored(b.body[i]) || QuietCode(b.body[i]))
  }

  predicate WellFormedSketch(blocks: seq<FunctionBlock>)
    decreases |blocks|
  {
    blocks == [] || (WellFormedBlock(blocks[0]) && WellFormedSketch(blocks[1..]))
  }

  function BlockLines(b: FunctionBlock): seq<string> {
    b.prelude + [b.header + "{\n"] + b.body + ["}\n"]
  }

  function SketchText(blocks: seq<FunctionBlock>): seq<string>
    decreases |blocks|
  {
    if blocks == [] then [] else BlockLines(blocks[0]) + SketchText(blocks[1..])
  }

  function Headers(blocks: seq<FunctionBlock>): seq<string> {
    seq(|blocks|, i requires 0 <= i < |blocks| => blocks[i].header)
  }

  /** The fragments a sketch of well-formed functions should yield: `d{` then `}`. */
  function HeaderFragments(blocks: seq<FunctionBlock>): seq<string>
    decreases |blocks|
  {
    if blocks == [] then [] else [blocks[0].header + "{", "}"] + HeaderFragments(blocks[1..])
  }

  lemma {:induction false} PreludeSkipped(st: Scan, lines: seq<string>)
    requires !st.inComment && st.braces == 0
    requires forall i :: 0 <= i < |lines| ==>
               Ignored(lines[i]) || (QuietCode(lines[i]) && EndsStatement(lines[i]))
    ensures ScanAll(st, lines) == st
    decreases |lines|
  {
    if lines != [] {
      assert ScanLine(st, lines[0]) == st;
      PreludeSkipped(st, lines[1..]);
    }
  }

  lemma {:induction false} BodySkipped(st: Scan, lines: seq<string>)
    requires !st.inComment && st.braces == 1
    requires forall i :: 0 <= i < |lines| ==> Ignored(lines[i]) || QuietCode(lines[i])
    ensures ScanAll(st, lines) == st
    decreases |lines|
  {
    if lines != [] {
      assert ScanLine(st, lines[0]) == st;
      BodySkipped(st, lines[1..]);
    }
  }

  /** What each test of the scan says about a header line `d{`. */
  lemma HeaderLineFacts(d: string)
    requires PlainDeclarator(d)
    ensures var line := d + "{\n";
      !Ignored(line) && !Contains(line, "/*") && !Contains(line, "*/") && '{' in line
      && !StartsWithCloseBrace(line) && !EndsStatement(line)
      && Strip(StripComments(line)) == d + "{"
  {
    var line := d + "{\n";
    assert forall c :: c in line ==> c == '{' || c == '\n' || c in d;
    assert Indent(line) == 0 by { SpanAt(line, 0, 0, IsSpace); }
    assert d[0] in d && line[..2][0] == d[0];
    assert line[|d|] == '{';
    CharAbsent(line, "/*", 0);
    CharAbsent(line, "*/", 1);
    NoSemicolonNoStatement(line, 0);
    HeaderStripped(d, "{", "{\n");
  }

  /** A header line `d{` or a one-line function `d{}` strips to its text. */
  lemma HeaderStripped(d: string, braces: string, tail: string)
    requires PlainDeclarator(d) && (braces == "{" || braces == "{}") && tail == braces + "\n"
    ensures Strip(StripComments(d + tail)) == d + braces
  {
    var body := d + braces;
    assert d[0] in d && body[0] == d[0] && body[|body| - 1] == braces[|braces| - 1];
    assert d + tail == body + "\n";
    StripPlainLine(body);
  }

  /** A line without a slash, ending in a newline, is stripped down to its text. */
  lemma StripPlainLine(body: string)
    requires '/' !in body && body != "" && !IsSpace(body[0]) && !IsSpace(body[|body| - 1])
    ensures Strip(StripComments(body + "\n")) == body
  {
    var line := body + "\n";
    assert '/' !in line;
    StripCommentsPlain(line, 0);
    assert StripComments(line) == line;
    StripNewline(body);
  }

  lemma StripNewline(body: string)
    requires body != "" && !IsSpace(body[0]) && !IsSpace(body[|body| - 1])
    ensures Strip(body + "\n") == body
  {
    var line := body + "\n";
    SpanAt(line, 0, 0, IsSpace);
    assert TrimLeft(line) == line;
    assert line[..|line| - 1] == body;
  }

  lemma HeaderRecorded(fragments: seq<string>, d: string)
    requires PlainDeclarator(d)
    ensures ScanLine(Scan(false, 0, fragments), d + "{\n") == Scan(false, 1, fragments + [d + "{"])
  {
    HeaderLineFacts(d);
  }

  lemma CloserRecorded(fragments: seq<string>)
    ensures ScanLine(Scan(false, 1, fragments), "}\n") == Scan(false, 0, fragments + ["}"])
  {
    var line := "}\n";
    assert Indent(line) == 0 by { SpanAt(line, 0, 0, IsSpace); }
    CharAbsent(line, "/*", 0);
    CharAbsent(line, "*/", 0);
    NoSemicolonNoStatement(line, 0);
    StripCommentsPlain(line, 0);
    assert TrimLeft(line) == line;
    assert line[..1] == "}";
  }

  lemma BlockScanned(fragments: seq<string>, b: FunctionBlock)
    requires WellFormedBlock(b)
    ensures ScanAll(Scan(false, 0, fragments), BlockLines(b))
            == Scan(false, 0, fragments + [b.header + "{", "}"])
  {
    var st := Scan(false, 0, fragments);
    var inside := Scan(false, 1, fragments + [b.header + "{"]);
    PreludeSkipped(st, b.prelude);
    HeaderScanned(fragments, b.header);
    BodySkipped(inside, b.body);
    CloserScanned(fragments + [b.header + "{"]);
    assert fragments + [b.header + "{"] + ["}"] == fragments + [b.header + "{", "}"];
    ChainScans(st, b.prelude, [b.header + "{\n"], b.body, ["}\n"], inside,
               Scan(false, 0, fragments + [b.header + "{", "}"]));
  }

  lemma HeaderScanned(fragments: seq<string>, d: string)
    requires PlainDeclarator(d)
    ensures ScanAll(Scan(false, 0, fragments), [d + "{\n"]) == Scan(false, 1, fragments + [d + "{"])
  {
    HeaderRecorded(fragments, d);
  }

  lemma CloserScanned(fragments: seq<string>)
    ensures ScanAll(Scan(false, 1, fragments), ["}\n"]) == Scan(false, 0, fragments + ["}"])
  {
    CloserRecorded(fragments);
  }

  /** Four runs of lines scanned one after the other: the first and the third leave the
      state as it is. */
  lemma ChainScans(st: Scan, a: seq<string>, b: seq<string>, c: seq<string>, d: seq<string>, s1: Scan, s2: Scan)
    requires ScanAll(st, a) == st && ScanAll(st, b) == s1 && ScanAll(s1, c) == s1 && ScanAll(s1, d) == s2
    ensures ScanAll(st, a + b + c + d) == s2
  {
    ScanAllAppend(st, a, b);
    ScanAllAppend(st, a + b, c);
    ScanAllAppend(st, a + b + c, d);
  }

  lemma {:induction false} SketchScanned(fragments: seq<string>, blocks: seq<FunctionBlock>)
    requires WellFormedSketch(blocks)
    ensures ScanAll(Scan(false, 0, fragments), SketchText(blocks))
            == Scan(false, 0, fragments + HeaderFragments(blocks))
    decreases |blocks|
  {
    if blocks != [] {
      var b := blocks[0];
      var next := fragments + [b.header + "{", "}"];
      BlockScanned(fragments, b);
      SketchScanned(next, blocks[1..]);
      ScanAllAppend(Scan(false, 0, fragments), BlockLines(b), SketchText(blocks[1..]));
      HeaderFragmentsCons(fragments, blocks);
    }
  }

  lemma HeaderFragmentsCons(fragments: seq<string>, blocks: seq<FunctionBlock>)
    requires blocks != []
    ensures fragments + [blocks[0].header + "{", "}"] + HeaderFragments(blocks[1..])
            == fragments + HeaderFragments(blocks)
  {
  }

  lemma PairJoined(h: string, rest: seq<string>)
    ensures Join([h + "{", "}"] + rest, "") == h + "{}" + Join(rest, "")
  {
    if rest == [] {
      assert [h + "{", "}"] + rest == [h + "{", "}"];
    } else {
      assert [h + "{", "}"] + rest == [h + "{"] + (["}"] + rest);
      JoinCons(h + "{", ["}"] + rest, "");
      JoinCons("}", rest, "");
    }
  }

  lemma {:induction false} HeaderFragmentsJoined(blocks: seq<FunctionBlock>)
    requires blocks != []
    ensures Join(HeaderFragments(blocks), "") == Join(Headers(blocks), "{}") + "{}"
    decreases |blocks|
  {
    var h := blocks[0].header;
    var more := blocks[1..];
    PairJoined(h, HeaderFragments(more));
    if more == [] {
      assert Headers(blocks) == [h];
    } else {
      HeaderFragmentsJoined(more);
      assert Headers(blocks) == [h] + Headers(more);
      JoinCons(h, Headers(more), "{}");
    }
  }

  /** `rstrip('{}')` removes exactly a final `{}` from text that ends otherwise. */
  lemma TrimFinalBraces(s: string)
    requires s != "" && !IsBrace(s[|s| - 1])
    ensures TrimBracesRight(s + "{}") == s
  {
    assert (s + "{}")[..|s| + 1] == s + "{";
    assert (s + "{")[..|s|] == s;
  }

  lemma {:induction false} HeadersPlain(blocks: seq<FunctionBlock>)
    requires WellFormedSketch(blocks)
    ensures forall i :: 0 <= i < |blocks| ==> PlainDeclarator(Headers(blocks)[i])
    decreases |blocks|
  {
    if blocks != [] {
      HeadersPlain(blocks[1..]);
      assert forall i :: 1 <= i < |blocks| ==> Headers(blocks)[i] == Headers(blocks[1..])[i - 1];
    }
  }

  /** Joining plain declarators with `{}`, adding the final `{}`, trimming it again
      and splitting gives the declarators back. */
  lemma HeadersRecovered(hs: seq<string>)
    requires hs != [] && forall i :: 0 <= i < |hs| ==> PlainDeclarator(hs[i])
    ensures Split(TrimBracesRight(Join(hs, "{}") + "{}"), "{}") == hs
  {
    var joined := Join(hs, "{}");
    JoinEndsPlain(hs);
    TrimFinalBraces(joined);
    assert TrimBracesRight(joined + "{}") == joined;
    NoBracePairs(hs);
    BracePairNoBorder();
    SplitJoin(hs, "{}");
  }

  lemma BracePairNoBorder()
    ensures NoBorder("{}")
  {
    assert "{}"[1..] == "}" && "{}"[..1] == "{";
  }

  /** Plain declarators joined by `{}` end in a character that is not a brace. */
  lemma JoinEndsPlain(hs: seq<string>)
    requires hs != [] && forall i :: 0 <= i < |hs| ==> PlainDeclarator(hs[i])
    ensures var joined := Join(hs, "{}"); joined != "" && !IsBrace(joined[|joined| - 1])
  {
    var joined := Join(hs, "{}");
    var last := hs[|hs| - 1];
    assert PlainDeclarator(last);
    assert last[|last| - 1] in last;
    JoinLastPart(hs, "{}");
    assert joined[|joined| - |last|..] == last;
    assert joined[|joined| - 1] == last[|last| - 1];
  }

  lemma NoBracePairs(hs: seq<string>)
    requires forall i :: 0 <= i < |hs| ==> PlainDeclarator(hs[i])
    ensures forall i :: 0 <= i < |hs| ==> !Contains(hs[i], "{}")
  {
    forall i | 0 <= i < |hs| ensures !Contains(hs[i], "{}") {
      assert PlainDeclarator(hs[i]);
      CharAbsent(hs[i], "{}", 0);
    }
  }

  /** A sketch of well-formed functions yields exactly one declaration per function,
      in order, each the header text before its `{`. */
  lemma SketchDeclarations(blocks: seq<FunctionBlock>)
    requires blocks != []
    requires WellFormedSketch(blocks)
    ensures Declarations(ScanAll(Initial, SketchText(blocks)).fragments) == Headers(blocks)
  {
    var fragments := ScanAll(Initial, SketchText(blocks)).fragments;
    SketchScanned([], blocks);
    assert [] + HeaderFragments(blocks) == HeaderFragments(blocks);
    assert fragments == HeaderFragments(blocks);
    HeaderFragmentsJoined(blocks);
    var joined := Join(Headers(blocks), "{}");
    assert Join(fragments, "") == joined + "{}";
    HeadersPlain(blocks);
    HeadersRecovered(Headers(blocks));
  }

  /** A closing brace followed by a line comment is recorded as a `}` fragment, just
      like a bare `}`: the depth test looks only at the start of the line. */
  lemma ClosingBraceWithComment(fragments: seq<string>, text: string)
    requires forall c :: c in text ==> c != '/' && c != '*' && c != '\n' && c != '{'
    ensures ScanLine(Scan(false, 1, fragments), "} //" + text + "\n")
            == Scan(false, 0, fragments + ["}"])
  {
    ClosingLineFacts(text);
  }

  /** What each test of the scan says about a line `} //text`. */
  lemma ClosingLineFacts(text: string)
    requires forall c :: c in text ==> c != '/' && c != '*' && c != '\n' && c != '{'
    ensures var line := "} //" + text + "\n";
      !Ignored(line) && !Contains(line, "/*") && !Contains(line, "*/") && '{' !in line
      && StartsWithCloseBrace(line) && !EndsStatement(line)
      && Strip(StripComments(line)) == "}"
  {
    var line := "} //" + text + "\n";
    assert Indent(line) == 0 by { SpanAt(line, 0, 0, IsSpace); }
    assert line[..2][0] == '}';
    assert '*' !in line && '{' !in line;
    CharAbsent(line, "/*", 1);
    CharAbsent(line, "*/", 0);
    StripBraceComment(text);
    StripClosingBrace();
  }

  lemma StripClosingBrace()
    ensures Strip("} \n") == "}"
  {
    SpanAt("} \n", 0, 0, IsSpace);
    assert TrimLeft("} \n") == "} \n";
    assert "} \n"[..2] == "} ";
    assert TrimRight("} \n") == TrimRight("} ");
    assert "} "[..1] == "}";
    assert TrimRight("} ") == TrimRight("}");
  }

  /** A function written on one line, `d{}`, opens a brace that no line closes: the
      depth never returns to zero, every later function is taken to be inside it, and
      only the first declaration is produced. */
  lemma OneLineFunctions(d1: string, d2: string)
    requires PlainDeclarator(d1) && PlainDeclarator(d2)
    ensures Declarations(ScanAll(Initial, [d1 + "{}\n", d2 + "{}\n"]).fragments) == [d1]
  {
    var first := ScanLine(Initial, d1 + "{}\n");
    OneLineHeader(d1);
    assert first == Scan(false, 1, [d1 + "{}"]);
    OneLineHeader(d2);
    var second := ScanLine(first, d2 + "{}\n");
    assert second == Scan(false, 2, [d1 + "{}"]);
    var lines := [d1 + "{}\n", d2 + "{}\n"];
    assert lines[1..] == [d2 + "{}\n"];
    assert ScanAll(first, [d2 + "{}\n"]) == ScanAll(second, []);
    assert ScanAll(Initial, lines) == ScanAll(first, lines[1..]);
    assert Join([d1 + "{}"], "") == d1 + "{}";
    assert d1[|d1| - 1] in d1;
    TrimFinalBraces(d1);
    CharAbsent(d1, "{}", 0);
    SplitWithoutSeparator(d1, "{}");
  }

  /** What each test of the scan says about a one-line function `d{}`. */
  lemma OneLineHeader(d: string)
    requires PlainDeclarator(d)
    ensures var line := d + "{}\n";
      !Ignored(line) && !Contains(line, "/*") && !Contains(line, "*/") && '{' in line
      && !StartsWithCloseBrace(line) && !EndsStatement(line)
      && Strip(StripComments(line)) == d + "{}"
  {
    var line := d + "{}\n";
    assert '/' !in d && ';' !in d;
    assert '/' !in line && ';' !in line;
    assert Indent(line) == 0 by { SpanAt(line, 0, 0, IsSpace); }
    assert d[0] in d && line[0] == d[0];
    assert line[..2][0] == line[0];
    assert line[|d|] == '{';
    CharAbsent(line, "/*", 0);
    CharAbsent(line, "*/", 1);
    NoSemicolonNoStatement(line, 0);
    HeaderStripped(d, "{}", "{}\n");
  }

  /** A joined string ends with the last part. */
  lemma {:induction false} JoinLastPart(parts: seq<string>, sep: string)
    requires parts != []
    ensures EndsWith(Join(parts, sep), parts[|parts| - 1])
    decreases |parts|
  {
    if |parts| > 1 {
      JoinLastPart(parts[1..], sep);
    }
  }
}

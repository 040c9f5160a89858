/** `fix_sketch`: merge the sketch's `.ino` files into one list of lines, collect the
    function declarations, and write the `.cpp` file with `#include<Arduino.h>` on top and
    the declarations inserted after the leading `#include` lines, returning the included
    header names. */
module SketchToCpp {
  import opened Text
  import opened Config
  import opened SketchLines

  /** A file of the sketch directory: its name and its lines, each keeping its `\n`. */
  datatype SourceFile = SourceFile(name: string, lines: seq<string>)

  /** The lines of the files of `dir` that `keep` selects, in directory order. */
  function SelectedLines(dir: seq<SourceFile>, keep: SourceFile -> bool): seq<string>
    decreases |dir|
  {
    if dir == [] then []
    else
      var last := dir[|dir| - 1];
      SelectedLines(dir[..|dir| - 1], keep) + (if keep(last) then last.lines else [])
  }

  /** A sibling `.ino` file: every one other than the sketch itself. */
  predicate IsSibling(sketchName: string, f: SourceFile) {
    EndsWith(f.name, ".ino") && f.name != sketchName
  }

  /** The sibling test as written: the file name must not occur anywhere inside the
      sketch's name. */
  predicate IsSiblingAsWritten(sketchName: string, f: SourceFile) {
    EndsWith(f.name, ".ino") && !Contains(sketchName, f.name)
  }

  /** The sketch's lines followed by those of every sibling `.ino` file. */
  function Merged(sketch: seq<string>, dir: seq<SourceFile>, sketchName: string): seq<string> {
    sketch + SelectedLines(dir, f => IsSibling(sketchName, f))
  }

  function MergedAsWritten(sketch: seq<string>, dir: seq<SourceFile>, sketchName: string): seq<string> {
    sketch + SelectedLines(dir, f => IsSiblingAsWritten(sketchName, f))
  }

  /** The sibling test the merging loop applies: the substring test as written, or the
      intended one. */
  predicate IsSiblingBy(asWritten: bool, sketchName: string, f: SourceFile) {
    if asWritten then IsSiblingAsWritten(sketchName, f) else IsSibling(sketchName, f)
  }

  /** The merging loop: every line of every sibling is appended in turn; `asWritten`
      chooses the substring test of the code over the intended one. */
  method MergeSketch(sketch: seq<string>, dir: seq<SourceFile>, sketchName: string, asWritten: bool)
    returns (merged: seq<string>)
    ensures merged == if asWritten then MergedAsWritten(sketch, dir, sketchName) else Merged(sketch, dir, sketchName)
  {
    merged := sketch;
    for i := 0 to |dir|
      invariant merged == sketch + SelectedLines(dir[..i], f => IsSiblingBy(asWritten, sketchName, f))
    {
      assert dir[..i + 1][..i] == dir[..i];
      var f := dir[i];
      if EndsWith(f.name, ".ino") {
        if (if asWritten then !Contains(sketchName, f.name) else f.name != sketchName) {
          for j := 0 to |f.lines|
            invariant merged == sketch + SelectedLines(dir[..i], g => IsSiblingBy(asWritten, sketchName, g)) + f.lines[..j]
          {
            merged := merged + [f.lines[j]];
            assert f.lines[..j + 1] == f.lines[..j] + [f.lines[j]];
          }
          assert f.lines[..|f.lines|] == f.lines;
        }
      }
    }
    assert dir[..|dir|] == dir;
    if asWritten {
      SelectedLinesAgree(dir, f => IsSiblingBy(asWritten, sketchName, f), f => IsSiblingAsWritten(sketchName, f));
    } else {
      SelectedLinesAgree(dir, f => IsSiblingBy(asWritten, sketchName, f), f => IsSibling(sketchName, f));
    }
  }

  /** Selection only depends on which files the two tests agree on. */
  lemma {:induction false} SelectedLinesAgree(dir: seq<SourceFile>, p: SourceFile -> bool, q: SourceFile -> bool)
    requires forall i :: 0 <= i < |dir| ==> p(dir[i]) == q(dir[i])
    ensures SelectedLines(dir, p) == SelectedLines(dir, q)
    decreases |dir|
  {
    if dir != [] {
      SelectedLinesAgree(dir[..|dir| - 1], p, q);
    }
  }

  /** The substring test picks the same files as the intended one when no other `.ino`
      file's name occurs inside the sketch's name. */
  lemma AsWrittenMergeAgrees(sketch: seq<string>, dir: seq<SourceFile>, sketchName: string)
    requires forall i :: 0 <= i < |dir| && EndsWith(dir[i].name, ".ino") && dir[i].name != sketchName
                         ==> !Contains(sketchName, dir[i].name)
    ensures MergedAsWritten(sketch, dir, sketchName) == Merged(sketch, dir, sketchName)
  {
    forall i | 0 <= i < |dir|
      ensures IsSiblingAsWritten(sketchName, dir[i]) == IsSibling(sketchName, dir[i])
    {
      if dir[i].name == sketchName {
        ContainsAt(sketchName, sketchName, 0);
      }
    }
    SelectedLinesAgree(dir, f => IsSiblingAsWritten(sketchName, f), f => IsSibling(sketchName, f));
  }

  /** The converse: when a sibling with at least one line has a name occurring inside the
      sketch's name, the substring test merges fewer lines than the intended test. */
  lemma AsWrittenMergeDiffers(sketch: seq<string>, dir: seq<SourceFile>, sketchName: string, k: nat)
    requires k < |dir| && IsSibling(sketchName, dir[k]) && dir[k].lines != []
    requires Contains(sketchName, dir[k].name)
    ensures |MergedAsWritten(sketch, dir, sketchName)| < |Merged(sketch, dir, sketchName)|
  {
    ContainsAt(sketchName, sketchName, 0);
    assert forall i :: 0 <= i < |dir| && IsSiblingAsWritten(sketchName, dir[i]) ==> IsSibling(sketchName, dir[i]);
    SelectedLinesShorter(dir, f => IsSiblingAsWritten(sketchName, f), f => IsSibling(sketchName, f), k);
  }

  /** A test that selects fewer files selects no more lines. */
  lemma {:induction false} SelectedLinesNoLonger(dir: seq<SourceFile>, p: SourceFile -> bool, q: SourceFile -> bool)
    requires forall i :: 0 <= i < |dir| && p(dir[i]) ==> q(dir[i])
    ensures |SelectedLines(dir, p)| <= |SelectedLines(dir, q)|
    decreases |dir|
  {
    if dir != [] {
      SelectedLinesNoLonger(dir[..|dir| - 1], p, q);
    }
  }

  /** ... and strictly fewer when it drops a file that has lines. */
  lemma {:induction false} SelectedLinesShorter(dir: seq<SourceFile>, p: SourceFile -> bool, q: SourceFile -> bool, k: nat)
    requires forall i :: 0 <= i < |dir| && p(dir[i]) ==> q(dir[i])
    requires k < |dir| && q(dir[k]) && !p(dir[k]) && dir[k].lines != []
    ensures |SelectedLines(dir, p)| < |SelectedLines(dir, q)|
    decreases |dir|
  {
    var front := dir[..|dir| - 1];
    if k == |dir| - 1 {
      SelectedLinesNoLonger(front, p, q);
    } else {
      assert front[k] == dir[k];
      SelectedLinesShorter(front, p, q, k);
    }
  }

  /** A sibling whose name is a tail of the sketch's name is silently left out: for the
      sketch `data.ino`, the lines of `a.ino` never reach the merged file. */
  lemma AsWrittenMergeDropsSibling()
    ensures var dir := [SourceFile("a.ino", ["int a;\n"])];
      MergedAsWritten([], dir, "data.ino") == []
      && Merged([], dir, "data.ino") == ["int a;\n"]
  {
    var dir := [SourceFile("a.ino", ["int a;\n"])];
    ContainsAt("data.ino", "a.ino", 3);
    assert dir[..0] == [];
    assert EndsWith("a.ino", ".ino");
  }

  // ---------------------------------------------------------------------------------
  // The `.cpp` output.

  const ArduinoInclude := "#include<Arduino.h>\n"

  predicate IsIncludeChar(c: char) { IsWordChar(c) || c == '/' || c == '-' }

  /** `^\s*#include\s*(<|")(?P<include_name>[\w/-]*)\.h("|>)`: the name between the
      opening bracket or quote and `.h`. */
  function IncludeName(line: string): (r: Option<string>)
    ensures r.Some? ==> All(r.value, IsIncludeChar) && Contains(line, "#include")
  {
    var w := Indent(line);
    if !StartsWith(line[w..], "#include") then None
    else
      var s := Span(line, w + 8, IsSpace);
      if s < |line| && (line[s] == '<' || line[s] == '"') then
        var e := Span(line, s + 1, IsIncludeChar);
        if e + 2 < |line| && line[e] == '.' && line[e + 1] == 'h' && (line[e + 2] == '"' || line[e + 2] == '>') then
          assert line[w..][..8] == line[w..w + 8];
          ContainsAt(line, "#include", w);
          Some(line[s + 1..e])
        else None
      else None
  }

  /** The match read off from where its parts stop. */
  lemma IncludeNameAt(line: string, w: nat, s: nat, e: nat, name: string)
    requires Indent(line) == w && w + 8 <= |line| && line[w..w + 8] == "#include"
    requires Span(line, w + 8, IsSpace) == s && s < |line| && (line[s] == '<' || line[s] == '"')
    requires Span(line, s + 1, IsIncludeChar) == e && e + 2 < |line|
    requires line[e] == '.' && line[e + 1] == 'h' && (line[e + 2] == '"' || line[e + 2] == '>')
    requires line[s + 1..e] == name
    ensures IncludeName(line) == Some(name)
  {
    assert line[w..][..8] == line[w..w + 8];
  }

  lemma KeywordPart(ws: string, gap: string, name: string, open: char, close: char, rest: string)
    requires All(ws, IsSpace)
    ensures var line := ws + "#include" + gap + [open] + name + ".h" + [close] + rest;
      Indent(line) == |ws| && line[|ws|..|ws| + 8] == "#include"
  {
    var line := ws + "#include" + gap + [open] + name + ".h" + [close] + rest;
    assert Occurs(line, 0, ws) && line[|ws|] == '#';
    SpanOver(line, 0, ws, IsSpace);
    assert Occurs(line, |ws|, "#include");
    OccursSlice(line, |ws|, "#include");
  }

  lemma GapPart(ws: string, gap: string, name: string, open: char, close: char, rest: string)
    requires All(gap, IsSpace) && (open == '<' || open == '"')
    ensures var line := ws + "#include" + gap + [open] + name + ".h" + [close] + rest;
      var s := |ws| + 8 + |gap|;
      Span(line, |ws| + 8, IsSpace) == s && s < |line| && line[s] == open
  {
    var line := ws + "#include" + gap + [open] + name + ".h" + [close] + rest;
    assert Occurs(line, |ws| + 8, gap) && line[|ws| + 8 + |gap|] == open;
    SpanOver(line, |ws| + 8, gap, IsSpace);
  }

  /** The middle of a concatenation occurs in it, and the rest follows. */
  lemma MiddlePart(pre: string, mid: string, post: string)
    ensures Occurs(pre + mid + post, |pre|, mid) && (pre + mid + post)[|pre|..|pre| + |mid|] == mid
    ensures (pre + mid + post)[|pre| + |mid|..] == post
  {
    var s := pre + mid + post;
    assert s[|pre|..|pre| + |mid|] == mid;
    assert s[|pre| + |mid|..] == post;
  }

  lemma NamePart(ws: string, gap: string, name: string, open: char, close: char, rest: string)
    requires All(name, IsIncludeChar)
    ensures var line := ws + "#include" + gap + [open] + name + ".h" + [close] + rest;
      var e := |ws| + 9 + |gap| + |name|;
      var s := |ws| + 8 + |gap|;
      Span(line, s + 1, IsIncludeChar) == e && e + 2 < |line|
      && line[e] == '.' && line[e + 1] == 'h' && line[e + 2] == close && line[s + 1..e] == name
  {
    var pre := ws + "#include" + gap + [open];
    var line := pre + name + ".h" + [close] + rest;
    MiddlePart(pre, name, ".h" + [close] + rest);
    assert line == pre + name + (".h" + [close] + rest);
    SpanOver(line, |pre|, name, IsIncludeChar);
  }

  /** Every `#include` line of the usual shape yields the name before `.h`, whatever
      follows the closing bracket. */
  lemma IncludeNameOf(ws: string, gap: string, name: string, open: char, close: char, rest: string)
    requires All(ws, IsSpace) && All(gap, IsSpace) && All(name, IsIncludeChar)
    requires open == '<' || open == '"'
    requires close == '>' || close == '"'
    ensures IncludeName(ws + "#include" + gap + [open] + name + ".h" + [close] + rest) == Some(name)
  {
    KeywordPart(ws, gap, name, open, close, rest);
    GapPart(ws, gap, name, open, close, rest);
    NamePart(ws, gap, name, open, close, rest);
    var line := ws + "#include" + gap + [open] + name + ".h" + [close] + rest;
    IncludeNameAt(line, |ws|, |ws| + 8 + |gap|, |ws| + 9 + |gap| + |name|, name);
  }

  /** What the writer has produced: the lines written so far, the include names
      collected, and whether it finished (`false` when a line mentioning `include`
      could not be read as an `#include`, which raises). */
  datatype Output = Output(written: seq<string>, includes: seq<string>, ok: bool)

  /** How the writer treats a line while in the include section: a line mentioning
      `include` is an include with its name or, when the pattern fails, an error; any
      other line ends the section. */
  datatype LineKind = IncludeOf(name: string) | BadInclude | Code

  function KindOf(line: string): LineKind {
    if !Contains(line, "include") then Code
    else match IncludeName(line)
      case Some(n) => IncludeOf(n)
      case None => BadInclude
  }

  function Kinds(lines: seq<string>): (ks: seq<LineKind>)
    ensures |ks| == |lines|
  {
    seq(|lines|, i requires 0 <= i < |lines| => KindOf(lines[i]))
  }

  /** The declaration lines the writer emits, one `declaration;` per line. */
  function DeclarationLines(decls: seq<string>): (dl: seq<string>)
    ensures |dl| == |decls|
    ensures forall i :: 0 <= i < |decls| ==> dl[i] == decls[i] + ";\n"
  {
    seq(|decls|, i requires 0 <= i < |decls| => decls[i] + ";\n")
  }

  /** The writing loop from some line on, still in the leading include section or past
      it; `dl` are the declaration lines. `keepFirst` says whether the line that ends
      the include section is written. */
  function EmitFrom(lines: seq<string>, kinds: seq<LineKind>, dl: seq<string>, inSection: bool, keepFirst: bool): Output
    requires |kinds| == |lines|
    decreases |lines|
  {
    if lines == [] then Output([], [], true)
    else if !inSection then
      var r := EmitFrom(lines[1..], kinds[1..], dl, false, keepFirst);
      Output([lines[0]] + r.written, r.includes, r.ok)
    else match kinds[0]
      case BadInclude => Output([lines[0]], [], false)
      case IncludeOf(n) =>
        var r := EmitFrom(lines[1..], kinds[1..], dl, true, keepFirst);
        Output([lines[0]] + r.written, [n] + r.includes, r.ok)
      case Code =>
        var r := EmitFrom(lines[1..], kinds[1..], dl, false, keepFirst);
        Output(dl + (if keepFirst then [lines[0]] else []) + r.written, r.includes, r.ok)
  }

  /** The `.cpp` text as intended: every line of the merged sketch, with the
      declarations after the leading include lines. */
  function Assembled(lines: seq<string>, decls: seq<string>): Output {
    var r := EmitFrom(lines, Kinds(lines), DeclarationLines(decls), true, true);
    Output([ArduinoInclude] + r.written, r.includes, r.ok)
  }

  /** The `.cpp` text as the loop writes it: the line that ends the include section is
      not written. */
  function AssembledAsWritten(lines: seq<string>, decls: seq<string>): Output {
    var r := EmitFrom(lines, Kinds(lines), DeclarationLines(decls), true, false);
    Output([ArduinoInclude] + r.written, r.includes, r.ok)
  }

  /** Past the include section every line is copied. */
  lemma {:induction false} EmitCopies(lines: seq<string>, kinds: seq<LineKind>, dl: seq<string>, keepFirst: bool)
    requires |kinds| == |lines|
    ensures EmitFrom(lines, kinds, dl, false, keepFirst) == Output(lines, [], true)
    decreases |lines|
  {
    if lines != [] {
      EmitCopies(lines[1..], kinds[1..], dl, keepFirst);
    }
  }

  /** What follows the include section in the written file: nothing when the sketch
      holds only includes, otherwise the declarations and the remaining lines. */
  function AfterIncludes(rest: seq<string>, dl: seq<string>, keepFirst: bool): seq<string> {
    if rest == [] then [] else dl + (if keepFirst then [rest[0]] else []) + rest[1..]
  }

  /** The line that ends the include section brings the declarations in. */
  lemma EmitCodeStep(line: string, rest: seq<string>, kinds: seq<LineKind>, dl: seq<string>, keepFirst: bool)
    requires |kinds| == |rest|
    ensures EmitFrom([line] + rest, [Code] + kinds, dl, true, keepFirst)
            == var r := EmitFrom(rest, kinds, dl, false, keepFirst);
               Output(dl + (if keepFirst then [line] else []) + r.written, r.includes, r.ok)
  {
    assert ([line] + rest)[1..] == rest;
    assert ([Code] + kinds)[1..] == kinds;
  }

  lemma EmitSectionEnd(rest: seq<string>, kinds: seq<LineKind>, dl: seq<string>, keepFirst: bool)
    requires |kinds| == |rest|
    requires rest != [] ==> kinds[0] == Code
    ensures EmitFrom(rest, kinds, dl, true, keepFirst) == Output(AfterIncludes(rest, dl, keepFirst), [], true)
  {
    if rest != [] {
      EmitCopies(rest[1..], kinds[1..], dl, keepFirst);
      assert rest == [rest[0]] + rest[1..];
      assert kinds == [Code] + kinds[1..];
      EmitCodeStep(rest[0], rest[1..], kinds[1..], dl, keepFirst);
    }
  }

  /** One include line is copied and its name collected. */
  lemma EmitIncludeStep(line: string, rest: seq<string>, n: string, kinds: seq<LineKind>, dl: seq<string>, keepFirst: bool)
    requires |kinds| == |rest|
    ensures EmitFrom([line] + rest, [IncludeOf(n)] + kinds, dl, true, keepFirst)
            == var r := EmitFrom(rest, kinds, dl, true, keepFirst); Output([line] + r.written, [n] + r.includes, r.ok)
  {
    assert ([line] + rest)[1..] == rest;
    assert ([IncludeOf(n)] + kinds)[1..] == kinds;
  }

  /** The include section is copied, its names collected, and then the declarations
      and (when `keepFirst`) the first line after it come, followed by the rest. */
  lemma {:induction false} EmitLayout(incs: seq<string>, names: seq<string>, rest: seq<string>, kinds: seq<LineKind>,
                                      dl: seq<string>, keepFirst: bool)
    requires |names| == |incs| && |kinds| == |incs| + |rest|
    requires forall i :: 0 <= i < |incs| ==> kinds[i] == IncludeOf(names[i])
    requires rest != [] ==> kinds[|incs|] == Code
    ensures EmitFrom(incs + rest, kinds, dl, true, keepFirst) == Output(incs + AfterIncludes(rest, dl, keepFirst), names, true)
    decreases |incs|
  {
    if incs == [] {
      assert incs + rest == rest;
      EmitSectionEnd(rest, kinds, dl, keepFirst);
    } else {
      var after := AfterIncludes(rest, dl, keepFirst);
      EmitLayout(incs[1..], names[1..], rest, kinds[1..], dl, keepFirst);
      HeadTail(incs, rest);
      assert kinds == [IncludeOf(names[0])] + kinds[1..];
      EmitIncludeStep(incs[0], incs[1..] + rest, names[0], kinds[1..], dl, keepFirst);
      HeadTail(incs, after);
      assert [names[0]] + names[1..] == names;
    }
  }

  /** An include section followed by a line that mentions `include` but is not an
      `#include` stops the writer right after writing that line. */
  lemma {:induction false} EmitStops(incs: seq<string>, names: seq<string>, bad: string, rest: seq<string>,
                                     kinds: seq<LineKind>, dl: seq<string>, keepFirst: bool)
    requires |names| == |incs| && |kinds| == |incs| + 1 + |rest|
    requires forall i :: 0 <= i < |incs| ==> kinds[i] == IncludeOf(names[i])
    requires kinds[|incs|] == BadInclude
    ensures EmitFrom(incs + ([bad] + rest), kinds, dl, true, keepFirst) == Output(incs + [bad], names, false)
    decreases |incs|
  {
    if incs == [] {
      assert incs + ([bad] + rest) == [bad] + rest;
    } else {
      EmitStops(incs[1..], names[1..], bad, rest, kinds[1..], dl, keepFirst);
      HeadTail(incs, [bad] + rest);
      assert kinds == [IncludeOf(names[0])] + kinds[1..];
      EmitIncludeStep(incs[0], incs[1..] + ([bad] + rest), names[0], kinds[1..], dl, keepFirst);
      HeadTail(incs, [bad]);
      assert [names[0]] + names[1..] == names;
    }
  }

  /** Lines that `#include` a header and mention `include`. */
  predicate IncludeLines(incs: seq<string>) {
    forall i :: 0 <= i < |incs| ==> Contains(incs[i], "include") && IncludeName(incs[i]).Some?
  }

  function IncludeNames(incs: seq<string>): (names: seq<string>)
    requires IncludeLines(incs)
    ensures |names| == |incs|
  {
    seq(|incs|, i requires 0 <= i < |incs| && IncludeLines(incs) => IncludeName(incs[i]).value)
  }

  /** The kinds of an include section followed by further lines. */
  lemma KindsOfSection(incs: seq<string>, rest: seq<string>)
    requires IncludeLines(incs)
    ensures var ks := Kinds(incs + rest);
      (forall i :: 0 <= i < |incs| ==> ks[i] == IncludeOf(IncludeNames(incs)[i]))
      && (rest != [] ==> ks[|incs|] == KindOf(rest[0]))
  {
    var ks := Kinds(incs + rest);
    forall i | 0 <= i < |incs| ensures ks[i] == IncludeOf(IncludeNames(incs)[i]) {
      assert (incs + rest)[i] == incs[i];
    }
    if rest != [] {
      assert (incs + rest)[|incs|] == rest[0];
    }
  }

  /** The written file is the Arduino include, the include section, the declarations
      and then every remaining line in order; the include names are returned. When
      the sketch holds only includes, no declaration is written. */
  lemma AssembledLayout(incs: seq<string>, rest: seq<string>, decls: seq<string>)
    requires IncludeLines(incs)
    requires rest != [] ==> !Contains(rest[0], "include")
    ensures Assembled(incs + rest, decls)
            == Output([ArduinoInclude] + incs + AfterIncludes(rest, DeclarationLines(decls), true), IncludeNames(incs), true)
  {
    KindsOfSection(incs, rest);
    EmitLayout(incs, IncludeNames(incs), rest, Kinds(incs + rest), DeclarationLines(decls), true);
  }

  /** As written, the first line after the include section is lost. */
  lemma AsWrittenLayout(incs: seq<string>, rest: seq<string>, decls: seq<string>)
    requires IncludeLines(incs)
    requires rest != [] ==> !Contains(rest[0], "include")
    ensures AssembledAsWritten(incs + rest, decls)
            == Output([ArduinoInclude] + incs + AfterIncludes(rest, DeclarationLines(decls), false), IncludeNames(incs), true)
  {
    KindsOfSection(incs, rest);
    EmitLayout(incs, IncludeNames(incs), rest, Kinds(incs + rest), DeclarationLines(decls), false);
  }

  /** The `#include <Servo.h>` line used in the example below. */
  lemma ServoSpans()
    ensures var line := "#include <Servo.h>\n";
      Indent(line) == 0 && Span(line, 8, IsSpace) == 9 && Span(line, 10, IsIncludeChar) == 15
  {
    var line := "#include <Servo.h>\n";
    SpanAt(line, 8, 9, IsSpace);
    SpanAt(line, 10, 15, IsIncludeChar);
  }

  lemma ServoName()
    ensures IncludeName("#include <Servo.h>\n") == Some("Servo")
  {
    ServoSpans();
    IncludeNameAt("#include <Servo.h>\n", 0, 9, 15, "Servo");
  }

  lemma ServoInclude()
    ensures IncludeLines(["#include <Servo.h>\n"])
    ensures IncludeNames(["#include <Servo.h>\n"]) == ["Servo"]
  {
    ServoName();
    ServoMentionsInclude();
  }

  lemma ServoMentionsInclude()
    ensures Contains("#include <Servo.h>\n", "include")
  {
    var inc := "#include <Servo.h>\n";
    assert inc[1..8] == "include";
    ContainsAt(inc, "include", 1);
  }

  /** One include line followed by one code line, as written and as intended. */
  lemma AsWrittenOneInclude(inc: string, code: string)
    requires IncludeLines([inc]) && !Contains(code, "include")
    ensures AssembledAsWritten([inc, code], []) == Output([ArduinoInclude, inc], IncludeNames([inc]), true)
  {
    assert [inc] + [code] == [inc, code];
    AsWrittenLayout([inc], [code], []);
    assert AfterIncludes([code], DeclarationLines([]), false) == [];
  }

  lemma AssembledOneInclude(inc: string, code: string)
    requires IncludeLines([inc]) && !Contains(code, "include")
    ensures Assembled([inc, code], []) == Output([ArduinoInclude, inc, code], IncludeNames([inc]), true)
  {
    assert [inc] + [code] == [inc, code];
    AssembledLayout([inc], [code], []);
    assert AfterIncludes([code], DeclarationLines([]), true) == [code];
  }

  /** The sketch `#include <Servo.h>` / `Servo s;` as written: the global variable
      is not in the file. */
  lemma AsWrittenServo()
    ensures AssembledAsWritten(["#include <Servo.h>\n", "Servo s;\n"], [])
            == Output([ArduinoInclude, "#include <Servo.h>\n"], ["Servo"], true)
  {
    ServoInclude();
    CharAbsent("Servo s;\n", "include", 0);
    AsWrittenOneInclude("#include <Servo.h>\n", "Servo s;\n");
  }

  /** The same sketch as intended: the variable follows the include. */
  lemma AssembledServo()
    ensures Assembled(["#include <Servo.h>\n", "Servo s;\n"], [])
            == Output([ArduinoInclude, "#include <Servo.h>\n", "Servo s;\n"], ["Servo"], true)
  {
    ServoInclude();
    CharAbsent("Servo s;\n", "include", 0);
    AssembledOneInclude("#include <Servo.h>\n", "Servo s;\n");
  }

  /** A concrete sketch whose global variable disappears from the written file. */
  lemma AsWrittenDropsLine()
    ensures var lines := ["#include <Servo.h>\n", "Servo s;\n"];
      "Servo s;\n" !in AssembledAsWritten(lines, []).written
      && "Servo s;\n" in Assembled(lines, []).written
  {
    AsWrittenServo();
    AssembledServo();
    var code := "Servo s;\n";
    assert "#include <Servo.h>\n"[0] != code[0];
    assert ArduinoInclude[0] != code[0];
  }

  /** A line in the include section that mentions `include` but is not an `#include`
      stops the writer right after writing it, as written and as intended. */
  lemma AssembledStopsAtBadInclude(incs: seq<string>, bad: string, rest: seq<string>, decls: seq<string>)
    requires IncludeLines(incs)
    requires Contains(bad, "include") && IncludeName(bad).None?
    ensures Assembled(incs + ([bad] + rest), decls)
            == Output([ArduinoInclude] + incs + [bad], IncludeNames(incs), false)
    ensures AssembledAsWritten(incs + ([bad] + rest), decls)
            == Output([ArduinoInclude] + incs + [bad], IncludeNames(incs), false)
  {
    var lines := incs + ([bad] + rest);
    KindsOfSection(incs, [bad] + rest);
    EmitStops(incs, IncludeNames(incs), bad, rest, Kinds(lines), DeclarationLines(decls), true);
    EmitStops(incs, IncludeNames(incs), bad, rest, Kinds(lines), DeclarationLines(decls), false);
  }

  /** What the writing loop has left to do: with `written` and `includes` produced
      so far, finishing from line `i` gives `target`. */
  ghost predicate Writing(lines: seq<string>, kinds: seq<LineKind>, dl: seq<string>, keepFirst: bool, i: nat,
                          inSection: bool, written: seq<string>, includes: seq<string>, target: Output)
    requires |kinds| == |lines| && i <= |lines|
  {
    var r := EmitFrom(lines[i..], kinds[i..], dl, inSection, keepFirst);
    Output(written + r.written, includes + r.includes, r.ok) == target
  }

  /** One step of the writing loop at line `i`, for each kind of line. */
  lemma CopyStep(lines: seq<string>, kinds: seq<LineKind>, dl: seq<string>, keepFirst: bool, i: nat,
                 written: seq<string>, includes: seq<string>, target: Output)
    requires |kinds| == |lines| && i < |lines|
    requires Writing(lines, kinds, dl, keepFirst, i, false, written, includes, target)
    ensures Writing(lines, kinds, dl, keepFirst, i + 1, false, written + [lines[i]], includes, target)
  {
    assert lines[i..][1..] == lines[i + 1..] && kinds[i..][1..] == kinds[i + 1..];
    var r := EmitFrom(lines[i + 1..], kinds[i + 1..], dl, false, keepFirst);
    assert written + ([lines[i]] + r.written) == written + [lines[i]] + r.written;
  }

  lemma IncludeStep(lines: seq<string>, kinds: seq<LineKind>, dl: seq<string>, keepFirst: bool, i: nat, name: string,
                    written: seq<string>, includes: seq<string>, target: Output)
    requires |kinds| == |lines| && i < |lines| && kinds[i] == IncludeOf(name)
    requires Writing(lines, kinds, dl, keepFirst, i, true, written, includes, target)
    ensures Writing(lines, kinds, dl, keepFirst, i + 1, true, written + [lines[i]], includes + [name], target)
  {
    assert lines[i..][1..] == lines[i + 1..] && kinds[i..][1..] == kinds[i + 1..];
    var r := EmitFrom(lines[i + 1..], kinds[i + 1..], dl, true, keepFirst);
    assert written + ([lines[i]] + r.written) == written + [lines[i]] + r.written;
    assert includes + ([name] + r.includes) == includes + [name] + r.includes;
  }

  lemma BadStep(lines: seq<string>, kinds: seq<LineKind>, dl: seq<string>, keepFirst: bool, i: nat,
                written: seq<string>, includes: seq<string>, target: Output)
    requires |kinds| == |lines| && i < |lines| && kinds[i] == BadInclude
    requires Writing(lines, kinds, dl, keepFirst, i, true, written, includes, target)
    ensures target == Output(written + [lines[i]], includes, false)
  {
  }

  lemma CodeStep(lines: seq<string>, kinds: seq<LineKind>, dl: seq<string>, keepFirst: bool, i: nat,
                 written: seq<string>, includes: seq<string>, target: Output)
    requires |kinds| == |lines| && i < |lines| && kinds[i] == Code
    requires Writing(lines, kinds, dl, keepFirst, i, true, written, includes, target)
    ensures Writing(lines, kinds, dl, keepFirst, i + 1, false,
                    written + dl + (if keepFirst then [lines[i]] else []), includes, target)
  {
    assert lines[i..][1..] == lines[i + 1..] && kinds[i..][1..] == kinds[i + 1..];
    var r := EmitFrom(lines[i + 1..], kinds[i + 1..], dl, false, keepFirst);
    var first := if keepFirst then [lines[i]] else [];
    assert written + (dl + first + r.written) == written + dl + first + r.written;
  }

  /** The declarations are written one per line, each followed by `;`. */
  method WriteDeclarations(written: seq<string>, decls: seq<string>) returns (result: seq<string>)
    ensures result == written + DeclarationLines(decls)
  {
    result := written;
    for k := 0 to |decls|
      invariant result == written + DeclarationLines(decls)[..k]
    {
      result := result + [decls[k] + ";\n"];
      assert DeclarationLines(decls)[..k + 1] == DeclarationLines(decls)[..k] + [decls[k] + ";\n"];
    }
    assert DeclarationLines(decls)[..|decls|] == DeclarationLines(decls);
  }

  /** The writing loop: the include section is copied and its names collected, the
      declarations follow, then every other line. As written (`asWritten`), the line
      that ends the include section is not written; as intended, it follows the
      declarations. */
  method WriteCpp(lines: seq<string>, decls: seq<string>, asWritten: bool) returns (out: Output)
    ensures out == if asWritten then AssembledAsWritten(lines, decls) else Assembled(lines, decls)
  {
    ghost var kinds := Kinds(lines);
    ghost var dl := DeclarationLines(decls);
    ghost var target := if asWritten then AssembledAsWritten(lines, decls) else Assembled(lines, decls);
    var written := [ArduinoInclude];
    var includes := [];
    var inSection := true;
    var i := 0;
    assert lines[0..] == lines && kinds[0..] == kinds;
    while i < |lines|
      invariant 0 <= i <= |lines|
      invariant Writing(lines, kinds, dl, !asWritten, i, inSection, written, includes, target)
    {
      var line := lines[i];
      assert kinds[i] == KindOf(line);
      if !inSection {
        CopyStep(lines, kinds, dl, !asWritten, i, written, includes, target);
        written := written + [line];
      } else if Contains(line, "include") {
        var name := IncludeName(line);
        if name.None? {
          BadStep(lines, kinds, dl, !asWritten, i, written, includes, target);
          return Output(written + [line], includes, false);
        }
        IncludeStep(lines, kinds, dl, !asWritten, i, name.value, written, includes, target);
        written := written + [line];
        includes := includes + [name.value];
      } else {
        CodeStep(lines, kinds, dl, !asWritten, i, written, includes, target);
        inSection := false;
        written := WriteDeclarations(written, decls);
        if !asWritten {
          written := written + [line];
        }
      }
      i := i + 1;
    }
    out := Output(written, includes, true);
  }

  /** The output file: the sketch's name without its last three characters, plus
      `cpp`, in the `build` directory beside it. */
  function OutputPath(pathOnly: string, sketchName: string): string {
    var stem := if |sketchName| >= 3 then sketchName[..|sketchName| - 3] else "";
    pathOnly + "/build/" + stem + "cpp"
  }

  /** For a sketch `name.ino` the output is `build/name.cpp`. */
  lemma OutputPathOfSketch(pathOnly: string, stem: string)
    ensures OutputPath(pathOnly, stem + ".ino") == pathOnly + "/build/" + stem + ".cpp"
  {
    var name := stem + ".ino";
    assert name[..|name| - 3] == stem + ".";
  }

  /** The whole conversion: merge, scan, split and write; the result holds the lines
      written to the `.cpp` file and the include names returned. With `asWritten` it
      is the code's conversion, with its substring test and its lost line; without,
      the intended one. */
  method FixSketch(sketch: seq<string>, dir: seq<SourceFile>, sketchName: string, asWritten: bool)
    returns (out: Output)
    ensures asWritten ==>
      var merged := MergedAsWritten(sketch, dir, sketchName);
      out == AssembledAsWritten(merged, Declarations(ScanAll(Initial, merged).fragments))
    ensures !asWritten ==>
      var merged := Merged(sketch, dir, sketchName);
      out == Assembled(merged, Declarations(ScanAll(Initial, merged).fragments))
  {
    var merged := MergeSketch(sketch, dir, sketchName, asWritten);
    var fragments := ScanDeclarators(merged);
    out := WriteCpp(merged, Declarations(fragments), asWritten);
  }
}

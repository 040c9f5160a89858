# Arduino_Builder_Loader in Dafny

A verified model of the text-processing core of Arduino_Builder_Loader, a set of Python 2
scripts that build an Arduino sketch without the Arduino IDE:

- **Configuration loaders.** `Variable_Manager` and `Pattern_Manager` (Variable_Loader.py),
  `Platform_File_Parser` (platform_txt_loader.py) and `Boards_File_Parser`
  (boards_txt_loader.py) read `platform.txt` / `boards.txt` lines. Each line is classified and
  the `[name, value]` pairs are appended to ordered lists. Lookup returns the first entry with
  a name. `replace_variables` expands `{dotted.name}` placeholders recursively.
- **Build decisions.** `Obj_Builder` / `Archive_Builder` (Command_Creator.py) derive the object
  path, decide from modification times whether the object is stale, and fill in the recipe's
  `{source_file}` / `{object_file}` before tokenizing. `remove_duplicate_args` and `fetch_cmd`
  post-process the argument list.
- **Sketch preprocessor.** `fix_sketch` (Sketch_to_Cpp.py) merges the sketch's `.ino` files,
  scans them with a comment / brace-depth state machine to collect function declarators,
  splits them into declarations, and writes the `.cpp` text with `#include<Arduino.h>`, the
  leading `#include` lines, the declarations and then the lines after the first non-include
  line (that line itself is not written; see Findings). It returns the included header
  names.

Every regular expression of the core is written out as an exact string function. This
includes the backtracking of Python 2's `re` where it changes the result: the `\w*.` of the
boards value pattern, the `\s*\{*[^}]` of the statement test, and the five alternatives of the
comment stripper. Character classes are those of Python 2 in ASCII mode.

Files and modules:

| file | module | models |
|---|---|---|
| text.dfy | `Text` | character classes, greedy runs, `strip`, `replace`, `split`, `join` |
| config.dfy | `Config` | `[name, value]` entries, first-match lookup, a caller-owned list, the `\s*[\w.]*\s*=` shape |
| filing.dfy | `Filing` | the loop shared by the two older parsers: each line goes to one of two lists or raises |
| platform_txt_loader.py → platform_txt_loader.dfy | `PlatformTxtLoader` | `Platform_File_Parser.__init__` |
| boards_txt_loader.py → boards_txt_loader.dfy | `BoardsTxtLoader` | `Boards_File_Parser.__init__` |
| Variable_Loader.py → variable_loader.dfy | `VariableLoader` | `Variable_Manager`, `Pattern_Manager` |
| Command_Creator.py → command_creator.dfy | `CommandCreator` | `Cmd_Builder`, `Obj_Builder`, `Archive_Builder` |
| Sketch_to_Cpp.py → sketch_lines.dfy, sketch_to_cpp.dfy | `SketchLines`, `SketchToCpp` | `fix_sketch`: the scan, and the merge and output |

Modelling choices:

- The loops that append to lists are methods over `EntryList` objects, or over the class's own
  `seq` field (`VariableManager.variables`, `PatternManager.patterns`). The caller may pass
  the same list twice to the older parsers; this aliasing is modelled.
- A Python exception in the middle of a parse is a line that `Raise`s or `Fail`s. The entries
  appended before it stay; the method returns a flag.
- File contents are sequences of lines that keep their `\n`. Modification times are a
  `map<string, int>`, where an absent path is a missing file. `shlex.split` is a parameter.
- `replace_variables` recurses without bound. `Expand` takes a `fuel` bound on the nesting
  depth and returns `None` when the fuel runs out.

The model follows the code. Where the code departs from what its own comments say it does,
`SketchToCpp.FixSketch` has both forms; the two cases are under Findings:

- The comment at Sketch_to_Cpp.py:9-11 says every other `.ino` file of the directory is
  appended. Line 20 tests that the file's name does not occur inside the sketch's name.
- The comment at Sketch_to_Cpp.py:210-215 says the declarations are inserted while the lines
  are copied. Lines 227-230 write the declarations in place of the first line after the
  includes, and that line is not written.

With `asWritten` set, `FixSketch` is the code's conversion. Without it, `FixSketch` is the
conversion those comments describe.

Other behaviour of the code that the model keeps:

- Lookup returns the first entry with a name, so a name appended again does not override the
  earlier entry.
- A sketch containing `setup(){}` and `loop(){}` yields one declaration
  (`SketchLines.OneLineFunctions`).
- The object path of a source without `/` raises IndexError.
- A stale object with no recipe (`None`) raises AttributeError.
- Include names keep their directory part (`[\w/-]*`).
- `SketchLines.StatementTest` proves a simpler form of the statement test
  `^\s*\{*[^}].*;`. On every line whose only newline is its last character, the regular
  expression, backtracking included, matches exactly when the line's first character is not
  `}` and a `;` comes after that first character.

## Model

| member | source | states |
|---|---|---|
| Text.StripIsTrimmed | Sketch_to_Cpp.py:200 | a stripped string neither starts nor ends with whitespace, and stripping again changes nothing |
| Text.TrimRight | Sketch_to_Cpp.py:200 | `rstrip()` removes exactly the trailing whitespace: the result is a prefix, what it drops is whitespace, and it does not end in whitespace |
| Text.ReplaceAllIsJoinOfSplit | Variable_Loader.py:104-106 | `str.replace` equals splitting on the pattern and joining with the replacement |
| Text.ReplaceAllJoin | Variable_Loader.py:104-106 | replacing a non-self-overlapping pattern replaces exactly the occurrences between the parts |
| Text.JoinSplit | Sketch_to_Cpp.py:208 | joining the pieces of a split with the same separator gives the string back |
| Text.SplitJoin | Sketch_to_Cpp.py:208 | splitting a join gives the parts back when no part contains the separator and the separator cannot overlap itself |
| Config.Lookup | Variable_Loader.py:71-75 | None exactly when no entry has the name; otherwise the value of the first entry with that name |
| Config.LookupAppend | Variable_Loader.py:80-81 | appending an entry changes only the lookup of a name that was absent, which then yields the new value |
| Config.AfterEquals | platform_txt_loader.py:31 | `\s*=` follows the position exactly when an `=` is reached through whitespace only; the result is the text after it |
| Config.AssignmentSplit | platform_txt_loader.py:31 | the leading whitespace and dotted name, and the text after the `=`, or None when no `=` follows the name through whitespace |
| Config.IndentedAssignment | platform_txt_loader.py:30-31 | in `indent name gap = after` the name starts after the indentation, ends at the gap, and the text after the `=` is `after` |
| Filing.Processed | platform_txt_loader.py:40-62 | the lines handled are those before the first line that raises, or all of them |
| Filing.Targeted | platform_txt_loader.py:52 | every entry filed to a list comes from a line filed to that list |
| Filing.TargetedAppend | platform_txt_loader.py:40-62 | filing two runs of lines files the first run's entries, then the second's |
| Filing.EntriesSplit | platform_txt_loader.py:52-61 | the two lists together receive, as a multiset, exactly what one shared list receives |
| Filing.FileLines | platform_txt_loader.py:40-62 | raises exactly when some line raises; each list gains, in order, the entries of the lines before the first raising line that go to it (both kinds when the same list is passed twice) |
| PlatformTxtLoader.RawValue | platform_txt_loader.py:25-31 | the value is the longest prefix of the text after `=` and its whitespace that holds no `#`; it is not stripped |
| PlatformTxtLoader.ClassifyPlatformLine | platform_txt_loader.py:43-62 | comments and lines with no `=` after a name free of `pattern` are skipped; a name containing `pattern` that does not end in it, or has no `=`, raises; otherwise the line is filed to the recipes exactly when its name contains `pattern`, under the indented name, with the raw value |
| PlatformTxtLoader.PatternNames | platform_txt_loader.py:47-62 | every recipe name ends in `pattern`; no variable name contains it, so no line goes to both lists |
| PlatformTxtLoader.ParsePlatformFile | platform_txt_loader.py:33-62 | raises exactly when a line raises; the variables and the recipes lists gain the entries of the processed lines, in file order |
| PlatformTxtLoader.RecipeLineFiled | platform_txt_loader.py:47-53 | `indent name gap = after` with a name ending in `pattern` is filed to the recipes under `indent name` |
| PlatformTxtLoader.VariableLineFiled | platform_txt_loader.py:56-62 | the same line with a name free of `pattern` is filed to the variables |
| PlatformTxtLoader.InnerPatternRaises | platform_txt_loader.py:47-51 | `pattern` inside a name but not at its end makes the line raise |
| PlatformTxtLoader.RawValueExamples | platform_txt_loader.py:25-31 | the value stops at `#` keeping the space before it, and keeps a final newline |
| BoardsTxtLoader.ValueText | boards_txt_loader.py:21 | the value is the longest prefix of the text after `=` and its whitespace holding no `#` and no newline |
| BoardsTxtLoader.ClassifyBoardLine | boards_txt_loader.py:26-43 | skipped exactly for comments, other boards' lines and sections other than upload and build; raises exactly when the name or the value pattern fails; upload lines go to the upload list, build lines to the build list, with the third segment and the value |
| BoardsTxtLoader.ParseBoardsFile | boards_txt_loader.py:23-43 | raises exactly when a line raises; the upload and build lists gain the entries of the processed lines, in file order |
| BoardsTxtLoader.SectionsExclusive | boards_txt_loader.py:33-43 | no line is both an upload and a build line, so a line lands in at most one list |
| BoardsTxtLoader.BoardAfterIndent | boards_txt_loader.py:15-31 | a line belongs to the board exactly when the board name and a dot follow its indentation |
| BoardsTxtLoader.EntriesFromBoardLines | boards_txt_loader.py:31-43 | every upload entry comes from an upload line of the board; every build entry from a build line of it that is not an upload line |
| BoardsTxtLoader.NameGroupAt | boards_txt_loader.py:20 | once the first two segments end in dots, the name is the word run after them |
| BoardsTxtLoader.NameOfLine | boards_txt_loader.py:20 | after three dotted segments, a word run followed by a non-word character is the name group |
| BoardsTxtLoader.ValueGroupAt | boards_txt_loader.py:21 | the value pattern's first success, trying the longest second segment first, is that of the third segment |
| BoardsTxtLoader.ValueAtGap | boards_txt_loader.py:21 | with whitespace before the `=`, its first character plays the `.` and the value is the text after the `=` |
| BoardsTxtLoader.ValueAtEquals | boards_txt_loader.py:21 | when the `=` itself plays the `.`, a second `\s*=` is needed after it |
| BoardsTxtLoader.ValueBeforeEquals | boards_txt_loader.py:21 | when the character before the `=` plays the `.`, the value is the text after the `=` |
| BoardsTxtLoader.ThirdFails | boards_txt_loader.py:21 | no split of a run of name characters lets `.\s*=` match inside it |
| BoardsTxtLoader.SecondFails | boards_txt_loader.py:21 | every split of such a run between the second and third `\w*` fails |
| BoardsTxtLoader.NoValueGroup | boards_txt_loader.py:21 | a third segment followed by a dot and a word character leaves the value pattern without a match |
| BoardsTxtLoader.ValueOfLine | boards_txt_loader.py:21 | a third segment followed by whitespace without a newline and `=` gives the text after that `=` as the value group |
| BoardsTxtLoader.ThreeGroups | boards_txt_loader.py:20-21 | for `head.name gap = after` the name group is `name` and the value group is the text after the matched `=` |
| BoardsTxtLoader.RecordedAs | boards_txt_loader.py:33-43 | a board line in upload or build whose groups both match is filed to that section's list with the name and the value: the text after `=` and the whitespace following it, cut at the first `#` or newline |
| BoardsTxtLoader.BoardVariableFiled | boards_txt_loader.py:26-43 | `indent board.section.name gap = after` with section upload or build is filed to that section's list under the third segment, with the value after the `=` cut at `#` or newline |
| BoardsTxtLoader.FourSegmentsRaise | boards_txt_loader.py:21-41 | a fourth dotted segment under upload or build makes the line raise |
| BoardsTxtLoader.RaisesWithoutValue | boards_txt_loader.py:33-43 | a board line in upload or build whose value pattern fails raises |
| VariableLoader.AssignedValueIsStripped | Variable_Loader.py:43-65 | the stored value is stripped: no whitespace at either end |
| VariableLoader.ClassifyVariableLine | Variable_Loader.py:52-69 | comments are skipped; with a board only lines starting `board.` can be stored, under the name after the prefix; without a board no line raises and the name keeps its leading whitespace; every value is stripped |
| VariableLoader.ClassifyBoardVariable | Variable_Loader.py:36-65 | lines not starting `board.` are skipped; a stored name is what follows `board.` |
| VariableLoader.ClassifyPlainVariable | Variable_Loader.py:40-65 | no line raises; a stored name is a prefix of the line that starts with its whole indentation |
| VariableLoader.PlainVariableLineStored | Variable_Loader.py:40-68 | `ws name gap = after` is stored under `ws name`, even when the name ends in `pattern`, with the stripped text before `#` |
| VariableLoader.BoardVariableLineStored | Variable_Loader.py:36-68 | `board.name gap = after` is stored under `name`, without the board prefix |
| VariableLoader.BoardVariableStored | Variable_Loader.py:36-68 | any line of the board whose dotted name is followed by `\s*=` is stored under that name |
| VariableLoader.EscapeQuotesEscapes | Variable_Loader.py:178 | after escaping, every `"` is immediately preceded by a backslash |
| VariableLoader.DefineFlagAt | Variable_Loader.py:157 | a match of the define-flag pattern lies inside the text, its `=` before its closing `}` |
| VariableLoader.RewriteWithoutDefineFlag | Variable_Loader.py:176-177 | without a define flag the substitution changes nothing |
| VariableLoader.DefineFlagRewritten | Variable_Loader.py:176-177 | `-DNAME="{var}"` becomes `-DNAME=\\"{var}\\"` |
| VariableLoader.OneDefineFlag | Variable_Loader.py:176-177 | a value holding one define flag gets its two inner quotes replaced by escaped quotes and nothing else changed |
| VariableLoader.ClassifyPatternLine | Variable_Loader.py:163-180 | skipped exactly when the leading name does not contain `pattern`; raises exactly when it does but does not end in it or has no `=`; a stored recipe's name ends in `pattern` and its quotes are all escaped |
| VariableLoader.PatternLineStored | Variable_Loader.py:170-179 | `ws name gap = after` with a name ending in `pattern` is stored under `ws name` with the stripped value, define flags rewritten first and quotes escaped after |
| VariableLoader.CollectSound | Variable_Loader.py:52-69 | the parse completes exactly when no line raises, and each entry kept is a line's entry |
| VariableLoader.ReadLines | Variable_Loader.py:52-69 | the loop keeps the entries of the lines in file order up to the first line that raises, and reports whether it reached the end |
| VariableLoader.ParseLinesSound | Variable_Loader.py:52-180 | a parse reaches the end exactly when no line raises, and each stored entry is the entry of one of the lines |
| VariableLoader.PlainVariableFileCompletes | Variable_Loader.py:40-65 | without a board name every variable file is read to the end |
| VariableLoader.PlaceholderNames | Variable_Loader.py:86-88 | every placeholder found is a non-empty dotted name |
| VariableLoader.PlaceholdersSkip | Variable_Loader.py:86-88 | text without `{` in front adds no placeholder |
| VariableLoader.PlaceholdersBraced | Variable_Loader.py:86-88 | `{n}` in front contributes `n` first |
| VariableLoader.PlaceholdersOfTemplate | Variable_Loader.py:86-88 | in a recipe made of `{`-free text and placeholders `{n_i}`, the placeholders found are the `n_i` in order, repeats included |
| VariableLoader.ExpandMonotone | Variable_Loader.py:83-108 | more fuel never changes a finished expansion |
| VariableLoader.SubstituteMonotone | Variable_Loader.py:99-106 | the same for the loop over the names |
| VariableLoader.ReplaceKeepsOther | Variable_Loader.py:104-106 | replacing `{m}` never destroys an occurrence of a different `{n}` |
| VariableLoader.SubstituteKeepsUnresolved | Variable_Loader.py:99-106 | an unresolved placeholder present before the loop is present after it |
| VariableLoader.ExpandKeepsUnresolved | Variable_Loader.py:100-106 | a placeholder whose name is missing or whose value is empty stays in the result verbatim |
| VariableLoader.KeepsEveryUnresolved | Variable_Loader.py:83-108 | the same, for every such name at once |
| VariableLoader.ReplaceCell | Variable_Loader.py:104-106 | replacing `{m}` turns a leading `{m}` into the replacement and copies a leading other placeholder or `{`-free text |
| VariableLoader.ReplaceInterleaved | Variable_Loader.py:104-106 | replacing `{m}` in a recipe replaces exactly the placeholders `{m}`, wherever they stand, and nothing else |
| VariableLoader.SubstituteInterleaved | Variable_Loader.py:99-106 | the loop over the names found turns every placeholder into its final text: the expansion of its truthy value, or itself |
| VariableLoader.ExpandTemplate | Variable_Loader.py:83-108 | on a recipe of `{`-free text and placeholders, each placeholder with a truthy value is replaced at every position by its value's recursive expansion, and each other placeholder stays |
| VariableLoader.VariableManager.constructor | Variable_Loader.py:19 | the manager starts with no entries |
| VariableLoader.VariableManager.ParseFile | Variable_Loader.py:22-69 | appends the parse's entries after the existing ones, and reports whether the file was read to the end |
| VariableLoader.VariableManager.FetchVariable | Variable_Loader.py:71-75 | None exactly when no entry has the name; otherwise the value of an entry with that name |
| VariableLoader.VariableManager.AddVariable | Variable_Loader.py:80-81 | appends the entry; a name already present keeps its value, and only a new name becomes visible |
| VariableLoader.VariableManager.ReplaceVariables | Variable_Loader.py:83-108 | text without placeholders is returned unchanged; every unresolved placeholder survives; on a recipe of `{`-free text and placeholders, each placeholder with a truthy value is replaced at every position by its value's expansion and each other placeholder stays |
| VariableLoader.PatternManager.constructor | Variable_Loader.py:128 | the manager starts with no recipes |
| VariableLoader.PatternManager.ParseFile | Variable_Loader.py:131-180 | appends the parse's recipes after the existing ones, and reports whether the file was read to the end |
| VariableLoader.PatternManager.FetchPattern | Variable_Loader.py:182-186 | None exactly when no recipe has the name; otherwise the value of a recipe with that name |
| CommandCreator.BaseName | Command_Creator.py:34 | None exactly when the path has no `/`; otherwise the slash-free text after the last `/` |
| CommandCreator.ObjectPath | Command_Creator.py:33-34 | `build_path/<base>.o` for the text after the last `/`, and None when the source has no `/` |
| CommandCreator.Plan | Command_Creator.py:32-43 | each error case exactly: no `/` in the source; an existing object with a missing source; a stale object with no recipe. Otherwise the object path, and a command exactly when the object is missing or strictly older than its source, namely the tokenized, filled-in recipe |
| CommandCreator.SourceStepKeepsObject | Command_Creator.py:39-41 | the `{source_file}` replacement leaves `{object_file}` intact |
| CommandCreator.SubstituteFills | Command_Creator.py:39-41 | the recipe `a{source_file}b{object_file}c` becomes `a<source>b<object>c` |
| CommandCreator.SplitWordsJoin | Command_Creator.py:24-26 | splitting on whitespace the command that `fetch_cmd` joins gives the arguments back when each is a non-empty word without whitespace |
| CommandCreator.DedupSameElements | Command_Creator.py:12-16 | removing duplicates keeps every argument and adds none |
| CommandCreator.DedupNoDuplicates | Command_Creator.py:12-16 | the result has no duplicates |
| CommandCreator.DedupSubsequence | Command_Creator.py:12-16 | the result is a subsequence of the input: the original order is kept |
| CommandCreator.DedupOfDistinct | Command_Creator.py:12-16 | a list without duplicates is left unchanged |
| CommandCreator.DedupIdempotent | Command_Creator.py:12-16 | removing duplicates twice is removing them once |
| CommandCreator.CmdBuilder.Create | Command_Creator.py:30-58 | both constructors: a new builder holding the plan's object path and argument list, or the plan's exception |
| CommandCreator.CmdBuilder.RemoveDuplicateArgs | Command_Creator.py:12-16 | None exactly for a missing or empty list; otherwise the first occurrence of each argument in order, without duplicates, as a subsequence holding every argument |
| CommandCreator.CmdBuilder.FetchCmd | Command_Creator.py:24-28 | None exactly for a missing or empty list; otherwise the arguments joined by single spaces: splitting on `" "` gives them back when none holds a space, and splitting on whitespace gives them back when none is empty or holds whitespace |
| CommandCreator.JoinedArgs | Command_Creator.py:26 | arguments joined by `" "` split back on `" "` when none holds a space, and on whitespace when none is empty or holds whitespace |
| SketchLines.NoSemicolonNoStatement | Sketch_to_Cpp.py:112 | a line without `;` never ends a statement |
| SketchLines.SemicolonAheadEarlier | Sketch_to_Cpp.py:112 | a `;` that `.*;` reaches from one position is reached from any earlier position on the same line |
| SketchLines.StatementTest | Sketch_to_Cpp.py:112-189 | a line with no inner newline ends a statement exactly when it does not start with `}` and has a `;` after its first character |
| SketchLines.LastCloseIn | Sketch_to_Cpp.py:118 | the last `*/` in the range, where greedy `.*\*/` stops, or None when there is none |
| SketchLines.CommentMatchAt | Sketch_to_Cpp.py:117-118 | a match of the comment pattern starting at a position ends after it, inside the line |
| SketchLines.NoMatchAt | Sketch_to_Cpp.py:117-118 | without `*/` on the line, no comment match starts at a character other than `/` |
| SketchLines.StripCommentsPlain | Sketch_to_Cpp.py:196 | text without `/` loses nothing to comment stripping |
| SketchLines.StripBraceComment | Sketch_to_Cpp.py:196 | `} //text` loses the comment and keeps the space and the final newline |
| SketchLines.LineCommentMatch | Sketch_to_Cpp.py:118 | `//` matches up to, not including, the final newline |
| SketchLines.LineEffects | Sketch_to_Cpp.py:130-200 | skipped lines and lines inside an open block comment change nothing; otherwise the comment flag ends set exactly when the line opens `/*` without `*/`, the depth moves +1 for `{` and −1 for a leading `}`, and one stripped fragment is added exactly when the depth is at most 0, or 1 on a line with `{`, and the line does not end a statement |
| SketchLines.IgnoredLinesKeepState | Sketch_to_Cpp.py:133-142 | comment-only, directive and blank lines leave the whole scanner state unchanged |
| SketchLines.ScanAllAppend | Sketch_to_Cpp.py:130 | scanning two runs of lines is scanning the second from where the first left off |
| SketchLines.ScanLineAppendsStripped | Sketch_to_Cpp.py:196-200 | one line appends at most one fragment, and it is stripped |
| SketchLines.ScanAppendsStripped | Sketch_to_Cpp.py:130-200 | the scan only appends, and every fragment it appends is stripped |
| SketchLines.ScanDeclarators | Sketch_to_Cpp.py:128-200 | the loop, statement by statement, yields the scan's fragments, all stripped |
| SketchLines.Declarations | Sketch_to_Cpp.py:204-208 | at least one declaration, even for no fragments |
| SketchLines.TrimBracesRight | Sketch_to_Cpp.py:208 | the longest prefix not ending in a brace, with only braces removed |
| SketchLines.PreludeSkipped | Sketch_to_Cpp.py:130-189 | top-level directives, comments, blank lines and statements add nothing at depth 0 |
| SketchLines.BodySkipped | Sketch_to_Cpp.py:161-176 | lines inside a function body that open no brace add nothing |
| SketchLines.HeaderStripped | Sketch_to_Cpp.py:196-200 | a header line `d{` and a one-line function `d{}` are each recorded as their own text, without the newline |
| SketchLines.HeaderLineFacts | Sketch_to_Cpp.py:133-196 | a header line `d{` is not skipped, opens a brace, does not end a statement, and strips to `d{` |
| SketchLines.HeaderRecorded | Sketch_to_Cpp.py:161-200 | a header line at depth 0 moves the depth to 1 and records `d{` |
| SketchLines.CloserRecorded | Sketch_to_Cpp.py:165-200 | a lone `}` at depth 1 returns to depth 0 and records `}` |
| SketchLines.BlockScanned | Sketch_to_Cpp.py:130-200 | a well-formed function records exactly `d{` and `}` |
| SketchLines.SketchScanned | Sketch_to_Cpp.py:130-200 | a sketch of well-formed functions records `d{`, `}` for each, in order |
| SketchLines.HeaderFragmentsJoined | Sketch_to_Cpp.py:204 | those fragments join to the headers separated and ended by `{}` |
| SketchLines.TrimFinalBraces | Sketch_to_Cpp.py:208 | `rstrip('{}')` removes exactly a final `{}` from text not ending in a brace |
| SketchLines.HeadersRecovered | Sketch_to_Cpp.py:204-208 | joining plain declarators with `{}`, trimming and splitting gives them back |
| SketchLines.SketchDeclarations | Sketch_to_Cpp.py:128-208 | a sketch of well-formed functions yields one declaration per function, in order: its header |
| SketchLines.ClosingBraceWithComment | Sketch_to_Cpp.py:165-200 | `} // comment` closes a function like a bare `}` |
| SketchLines.OneLineFunctions | Sketch_to_Cpp.py:161-176 | two one-line functions `d{}` yield only the first declaration |
| SketchLines.OneLineHeader | Sketch_to_Cpp.py:133-196 | a one-line function `d{}` is not skipped, opens a brace, does not end a statement, and strips to `d{}` |
| SketchToCpp.MergeSketch | Sketch_to_Cpp.py:15-23 | as written, the sketch's lines followed by those of every `.ino` file whose name does not occur inside the sketch's name; as intended, those of every other `.ino` file; in directory order |
| SketchToCpp.SelectedLinesAgree | Sketch_to_Cpp.py:18-20 | two file filters that agree on every file select the same lines |
| SketchToCpp.AsWrittenMergeAgrees | Sketch_to_Cpp.py:20 | the substring test merges the same lines as the intended test when no other `.ino` name occurs inside the sketch's name |
| SketchToCpp.AsWrittenMergeDiffers | Sketch_to_Cpp.py:20 | conversely, a sibling with at least one line whose name occurs inside the sketch's name makes the substring test merge fewer lines |
| SketchToCpp.SelectedLinesNoLonger | Sketch_to_Cpp.py:18-23 | a test that accepts fewer files selects no more lines |
| SketchToCpp.SelectedLinesShorter | Sketch_to_Cpp.py:18-23 | and strictly fewer when it drops a file that has lines |
| SketchToCpp.AsWrittenMergeDropsSibling | Sketch_to_Cpp.py:20 | for the sketch `data.ino`, the sibling `a.ino` is left out as written and kept as intended |
| SketchToCpp.IncludeName | Sketch_to_Cpp.py:107-108 | a name found is made of `[\w/-]` characters, on a line containing `#include` |
| SketchToCpp.IncludeNameOf | Sketch_to_Cpp.py:107-225 | every `#include <name.h>` or `#include "name.h"` line, indented or not, yields `name`, whatever follows |
| SketchToCpp.DeclarationLines | Sketch_to_Cpp.py:229-230 | one line per declaration, the declaration followed by `;` and a newline |
| SketchToCpp.EmitCopies | Sketch_to_Cpp.py:231-232 | past the include section every line is copied verbatim |
| SketchToCpp.EmitCodeStep | Sketch_to_Cpp.py:227-230 | the line ending the include section brings in the declarations |
| SketchToCpp.EmitIncludeStep | Sketch_to_Cpp.py:222-226 | an include line is copied and its name collected |
| SketchToCpp.EmitLayout | Sketch_to_Cpp.py:217-232 | the include section, then the declarations, then the remaining lines |
| SketchToCpp.EmitStops | Sketch_to_Cpp.py:223-225 | a line mentioning `include` that is not an `#include` is written and then stops the writer, as written and as intended |
| SketchToCpp.AssembledLayout | Sketch_to_Cpp.py:217-234 | as intended, the output is the Arduino include, the include section, the declarations and every later line; the include names are returned in order; without code lines no declaration is written |
| SketchToCpp.AsWrittenLayout | Sketch_to_Cpp.py:227-230 | as written, the same layout without the first line after the include section |
| SketchToCpp.AsWrittenOneInclude | Sketch_to_Cpp.py:221-232 | as written, one include and one code line give only the include |
| SketchToCpp.AssembledOneInclude | Sketch_to_Cpp.py:221-232 | as intended, both lines are written |
| SketchToCpp.AsWrittenServo | Sketch_to_Cpp.py:227-232 | as written, `#include <Servo.h>` then `Servo s;` loses the variable |
| SketchToCpp.AssembledServo | Sketch_to_Cpp.py:227-232 | as intended, the variable follows the include |
| SketchToCpp.AsWrittenDropsLine | Sketch_to_Cpp.py:227-230 | a concrete sketch whose global variable is missing from the written file and present in the intended one |
| SketchToCpp.AssembledStopsAtBadInclude | Sketch_to_Cpp.py:223-225 | as written and as intended, an unreadable line mentioning `include` in the include section is written and raises |
| SketchToCpp.WriteDeclarations | Sketch_to_Cpp.py:229-230 | appends one `declaration;` line per declaration |
| SketchToCpp.WriteCpp | Sketch_to_Cpp.py:217-234 | the writing loop produces the output as written (the line that ends the include section is not written) or, as intended, with that line after the declarations |
| SketchToCpp.OutputPathOfSketch | Sketch_to_Cpp.py:217 | for `name.ino` the output is `build/name.cpp` beside it |
| SketchToCpp.FixSketch | Sketch_to_Cpp.py:8-234 | merge, scan, split and write give the output and include names of the code (`asWritten`) or of the intended conversion, each of its own merged sketch |

## Definitions

The functions the contracts above are stated in, with the source they model and the members
that state their properties.

| function | source | properties stated by |
|---|---|---|
| `Text.Strip` | Variable_Loader.py:65 | `Text.StripIsTrimmed` |
| `Text.Split` | Sketch_to_Cpp.py:208 | `Text.SplitJoin`, `Text.JoinSplit`, `SketchLines.Declarations` |
| `Text.Join` | Command_Creator.py:26 | `Text.SplitJoin`, `Text.JoinSplit`, `CommandCreator.JoinedArgs` |
| `Text.ReplaceAll` | Variable_Loader.py:104-106 | `Text.ReplaceAllIsJoinOfSplit`, `Text.ReplaceAllJoin`, `VariableLoader.ReplaceInterleaved` |
| `BoardsTxtLoader.IsBoardLine` | boards_txt_loader.py:14-16 | `BoardsTxtLoader.BoardAfterIndent` |
| `BoardsTxtLoader.NameGroup` | boards_txt_loader.py:20 | `BoardsTxtLoader.NameGroupAt`, `BoardsTxtLoader.NameOfLine`, `BoardsTxtLoader.ThreeGroups` |
| `BoardsTxtLoader.ValueGroup` | boards_txt_loader.py:21 | `BoardsTxtLoader.ValueGroupAt`, `BoardsTxtLoader.ValueOfLine`, `BoardsTxtLoader.NoValueGroup` |
| `BoardsTxtLoader.Record` | boards_txt_loader.py:31-41 | `BoardsTxtLoader.RecordedAs`, `BoardsTxtLoader.RaisesWithoutValue` |
| `VariableLoader.ParseLines` | Variable_Loader.py:52-69 | `VariableLoader.ParseLinesSound`, `VariableLoader.ReadLines` |
| `VariableLoader.RewriteDefines` | Variable_Loader.py:157-177 | `VariableLoader.RewriteWithoutDefineFlag`, `VariableLoader.OneDefineFlag` |
| `VariableLoader.EscapeQuotes` | Variable_Loader.py:178 | `VariableLoader.EscapeQuotesEscapes` |
| `VariableLoader.Placeholders` | Variable_Loader.py:86-88 | `VariableLoader.PlaceholderNames`, `VariableLoader.PlaceholdersOfTemplate` |
| `VariableLoader.Expand` | Variable_Loader.py:83-108 | `VariableLoader.ExpandTemplate`, `VariableLoader.KeepsEveryUnresolved`, `VariableLoader.ExpandMonotone` |
| `VariableLoader.SubstituteAll` | Variable_Loader.py:99-106 | `VariableLoader.SubstituteInterleaved`, `VariableLoader.SubstituteKeepsUnresolved` |
| `CommandCreator.Stale` | Command_Creator.py:36-38 | `CommandCreator.Plan` |
| `CommandCreator.Substitute` | Command_Creator.py:39-41 | `CommandCreator.SubstituteFills` |
| `CommandCreator.SplitWords` | Command_Creator.py:39 | `CommandCreator.SplitWordsJoin` |
| `CommandCreator.Dedup` | Command_Creator.py:12-16 | `CommandCreator.DedupSameElements`, `CommandCreator.DedupNoDuplicates`, `CommandCreator.DedupIdempotent` |
| `SketchLines.EndsStatement` | Sketch_to_Cpp.py:112 | `SketchLines.StatementTest` |
| `SketchLines.StripComments` | Sketch_to_Cpp.py:117-118 | `SketchLines.StripCommentsPlain`, `SketchLines.StripBraceComment` |
| `SketchLines.ScanLine` | Sketch_to_Cpp.py:130-200 | `SketchLines.LineEffects`, `SketchLines.IgnoredLinesKeepState` |
| `SketchLines.ScanAll` | Sketch_to_Cpp.py:130-200 | `SketchLines.ScanAllAppend`, `SketchLines.SketchScanned`, `SketchLines.ScanDeclarators` |
| `SketchToCpp.Merged` | Sketch_to_Cpp.py:9-23 | `SketchToCpp.MergeSketch`, `SketchToCpp.AsWrittenMergeAgrees` |
| `SketchToCpp.MergedAsWritten` | Sketch_to_Cpp.py:15-23 | `SketchToCpp.MergeSketch`, `SketchToCpp.AsWrittenMergeDiffers` |
| `SketchToCpp.KindOf` | Sketch_to_Cpp.py:222-227 | `SketchToCpp.IncludeNameOf`, `SketchToCpp.KindsOfSection` |
| `SketchToCpp.EmitFrom` | Sketch_to_Cpp.py:221-232 | `SketchToCpp.EmitLayout`, `SketchToCpp.EmitStops`, `SketchToCpp.EmitCopies` |
| `SketchToCpp.Assembled` | Sketch_to_Cpp.py:210-234 | `SketchToCpp.AssembledLayout`, `SketchToCpp.WriteCpp` |
| `SketchToCpp.AssembledAsWritten` | Sketch_to_Cpp.py:217-234 | `SketchToCpp.AsWrittenLayout`, `SketchToCpp.WriteCpp` |
| `SketchToCpp.OutputPath` | Sketch_to_Cpp.py:217 | `SketchToCpp.OutputPathOfSketch` |

## Left out

- File I/O. `open`, `readlines` and writing the `.cpp` are left out: inputs are sequences of
  lines and the output is the returned sequence of written lines.
- `os.listdir` order is the order of the `dir` sequence given to `MergeSketch`.
  `os.path.dirname` / `basename` are not modelled: the sketch's directory and name are
  parameters.
- `os.path.exists` / `getmtime` are a map from path to modification time.
- `shlex.split` is the `tokenize` parameter of `Plan` and `CmdBuilder.Create`, and is not
  defined. `SplitWords` is splitting on whitespace, which agrees with `shlex.split` only on
  text without quotes or backslashes. `SplitWordsJoin`, `JoinedArgs` and `FetchCmd` therefore
  state nothing about `shlex.split` on arguments holding `"`, `'` or `\`, such as the escaped
  define flags of Variable_Loader.py:176-178.
- `Variable_Manager.find_variable` (Variable_Loader.py:110-114) is not modelled: it reads an
  undefined global `Variables` and always raises NameError.
- `Cmd_Builder.fetch_out_file` is not modelled: it reads `out_file`, which no constructor sets,
  so it always raises AttributeError. `fetch_cmd_pattern`, `fetch_variable_list` and
  `fetch_pattern_list` only return a field, which the model exposes directly.
- Board names holding regular-expression metacharacters are not modelled for
  `Variable_Manager`: the model treats the board name as literal text, whereas the source
  splices it into the pattern unescaped. `Boards_File_Parser` escapes it, as the model does.
- The unused regular expressions of `fix_sketch` (Sketch_to_Cpp.py:93-94, 121-126) and the
  unused `parens_stack` are not modelled.
- VariableLoader.Expand: bounded by `fuel`. A cyclic definition, on which the source recurses
  until Python's recursion limit, is an expansion that never finishes within any fuel.
- VariableLoader.VariableManager.FetchVariable and VariableLoader.PatternManager.FetchPattern
  state only that some entry has the name. `Config.Lookup`, on which they are built, states
  that it is the first.
- BoardsTxtLoader.BoardVariableFiled: requires a word-character board name and a gap without
  a newline. Other lines are covered only by `ClassifyBoardLine`'s own contract.
- VariableLoader.VariableManager.ReplaceVariables and VariableLoader.ExpandTemplate: the
  statement about every placeholder of a recipe covers values whose own expansion holds no `{`.
  A value that expands to text with a `{` could form a new placeholder with the text around it;
  such recipes are covered only by `KeepsEveryUnresolved` and `ExpandMonotone`.
- SketchLines.StatementTest: assumes the newline, if any, is the line's last character, as it
  is for lines read from a file.
- Python 2 `re` is ASCII-only here: `\s` and `\w` are the ASCII classes, and there is no
  Unicode or locale mode.

## Findings

| source | as written | input that shows it | evidently intended | confidence | as-written member | corrected member |
|---|---|---|---|---|---|---|
| Sketch_to_Cpp.py:20 | a sibling `.ino` is merged only when its name does not occur inside the sketch's name | sketch `data.ino` with sibling `a.ino`: `a.ino` is a substring of `data.ino`, so its lines are dropped | merge every `.ino` file other than the sketch itself | not executed | SketchToCpp.AsWrittenMergeDropsSibling | SketchToCpp.MergeSketch |
| Sketch_to_Cpp.py:227-230 | the first line after the include section triggers the declarations and is itself never written | `#include <Servo.h>` then `Servo s;`: the written file has no `Servo s;` | write the declarations, then that line | not executed | SketchToCpp.AsWrittenDropsLine | SketchToCpp.AssembledLayout |

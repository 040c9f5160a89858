/** The command builders: for one source file, the object path it compiles to, whether
    it must be rebuilt, and the argument list of the command that rebuilds it. */
module CommandCreator {
  import opened Text
  import opened Config

  /** The exceptions the builders can raise. */
  datatype BuildError =
    | NoDirectoryInSource  // `rsplit("/", 1)[1]` on a path without `/`: IndexError
    | SourceMissing        // `getmtime` on a source file that does not exist: OSError
    | NoRecipe             // `.replace` on a recipe that is None: AttributeError

  datatype Outcome<+T> = Ok(value: T) | Err(error: BuildError)

  /** The part of a path after its last `/`: `path.rsplit("/", 1)[1]`. */
  function BaseName(path: string): (r: Option<string>)
    ensures r.None? <==> '/' !in path
    ensures r.Some? ==> '/' !in r.value && EndsWith(path, "/" + r.value)
  {
    if path == "" then None
    else
      var init, last := path[..|path| - 1], path[|path| - 1];
      assert path == init + [last];
      if last == '/' then Some("")
      else match BaseName(init)
        case None => None
        case Some(b) =>
          assert path[|path| - |"/" + b + [last]|..] == path[|init| - |"/" + b|..|init|] + [last];
          Some(b + [last])
  }

  /** `build_path + "/" + basename + ".o"`. */
  function ObjectPath(buildPath: string, source: string): (r: Option<string>)
    ensures r.None? <==> '/' !in source
    ensures r.Some? ==> exists b :: '/' !in b && EndsWith(source, "/" + b) && r.value == buildPath + "/" + b + ".o"
  {
    match BaseName(source)
    case None => None
    case Some(b) => Some(buildPath + "/" + b + ".o")
  }

  /** Modification times of the files that exist. */
  type Mtimes = map<string, int>

  /** The object is stale when it is missing, or older than its source. */
  predicate Stale(fs: Mtimes, source: string, obj: string)
    requires obj in fs ==> source in fs
  {
    obj !in fs || fs[source] > fs[obj]
  }

  /** The recipe with its two placeholders filled in. */
  function Substitute(recipe: string, source: string, obj: string): string {
    ReplaceAll(ReplaceAll(recipe, "{source_file}", source), "{object_file}", obj)
  }

  /** What a builder holds once constructed. */
  datatype BuildStep = BuildStep(objFile: string, cmdArgList: Option<seq<string>>)

  /** The constructor of `Obj_Builder` and of `Archive_Builder` (the two are identical):
      the object path, then the staleness test, then the tokenized command when stale. The
      shell-style tokenizer is a parameter. */
  function Plan(buildPath: string, source: string, recipe: Option<string>, fs: Mtimes,
                tokenize: string -> seq<string>): (r: Outcome<BuildStep>)
    ensures r == Err(NoDirectoryInSource) <==> '/' !in source
    ensures r == Err(SourceMissing) <==>
              '/' in source && ObjectPath(buildPath, source).value in fs && source !in fs
    ensures r == Err(NoRecipe) <==>
              '/' in source && var obj := ObjectPath(buildPath, source).value;
              (obj in fs ==> source in fs) && Stale(fs, source, obj) && recipe.None?
    ensures r.Ok? ==> r.value.objFile == ObjectPath(buildPath, source).value
                      && (r.value.objFile in fs ==> source in fs)
                      && (r.value.cmdArgList.Some? <==> Stale(fs, source, r.value.objFile))
    ensures r.Ok? && r.value.cmdArgList.Some? ==>
              recipe.Some? && r.value.cmdArgList.value == tokenize(Substitute(recipe.value, source, r.value.objFile))
  {
    match ObjectPath(buildPath, source)
    case None => Err(NoDirectoryInSource)
    case Some(obj) =>
      if obj in fs && source !in fs then Err(SourceMissing)
      else if !Stale(fs, source, obj) then Ok(BuildStep(obj, None))
      else if recipe.None? then Err(NoRecipe)
      else Ok(BuildStep(obj, Some(tokenize(Substitute(recipe.value, source, obj)))))
  }

  /** `{object_file}` does not start with `{source_file}`, so the first replacement keeps it. */
  lemma SourceStepKeepsObject(b: string, c: string, source: string)
    requires '{' !in b && '{' !in c
    ensures ReplaceAll(b + "{object_file}" + c, "{source_file}", source) == b + "{object_file}" + c
  {
    var sp, op := "{source_file}", "{object_file}";
    ObjectPlaceholderKept(c, source);
    ReplaceAllSkipsPrefix(b, op + c, sp, source);
    assert b + op + c == b + (op + c);
  }

  lemma ObjectPlaceholderKept(c: string, source: string)
    requires '{' !in c
    ensures ReplaceAll("{object_file}" + c, "{source_file}", source) == "{object_file}" + c
  {
    var sp, op := "{source_file}", "{object_file}";
    var tail := "object_file}" + c;
    assert '{' !in tail by {
      assert forall i :: 0 <= i < |tail| ==> tail[i] == ("object_file}" + c)[i];
    }
    ReplaceAllAbsent(tail, sp, source);
    assert (op + c)[..|sp|][1] == 'o' != sp[1];
    assert (op + c)[1..] == tail;
  }

  lemma ReplaceAfterPrefix(a: string, pat: string, rest: string, rep: string)
    requires pat != "" && pat[0] !in a
    ensures ReplaceAll(a + pat + rest, pat, rep) == a + rep + ReplaceAll(rest, pat, rep)
  {
    assert (pat + rest)[..|pat|] == pat && (pat + rest)[|pat|..] == rest;
    ReplaceAllSkipsPrefix(a, pat + rest, pat, rep);
    assert a + pat + rest == a + (pat + rest);
  }

  /** A recipe `a{source_file}b{object_file}c` becomes `a<source>b<object>c`. */
  lemma SubstituteFills(a: string, b: string, c: string, source: string, obj: string)
    requires '{' !in a && '{' !in b && '{' !in c && '{' !in source
    ensures Substitute(a + "{source_file}" + b + "{object_file}" + c, source, obj) == a + source + b + obj + c
  {
    var sp, op := "{source_file}", "{object_file}";
    var rest := b + op + c;
    var recipe := a + sp + b + op + c;
    assert recipe == a + sp + rest;
    SourceStepKeepsObject(b, c, source);
    ReplaceAfterPrefix(a, sp, rest, source);
    var mid := ReplaceAll(recipe, sp, source);
    assert mid == a + source + rest;
    var front := a + source + b;
    assert mid == front + op + c;
    assert '{' !in front;
    ReplaceAllAbsent(c, op, obj);
    ReplaceAfterPrefix(front, op, c, obj);
  }

  /** `shlex.split` on text without quotes or backslashes: whitespace-separated words. */
  function SplitWords(s: string): (words: seq<string>)
    decreases |s|
  {
    var t := TrimLeft(s);
    if t == "" then []
    else
      var e := Span(t, 0, IsNotSpace);
      [t[..e]] + SplitWords(t[e..])
  }

  lemma SplitWordsAfterSpace(j: string)
    ensures SplitWords(" " + j) == SplitWords(j)
  {
    var w := Span(j, 0, IsSpace);
    assert forall k :: 1 <= k < 1 + w ==> (" " + j)[k] == j[k - 1];
    SpanAt(" " + j, 0, 1 + w, IsSpace);
    assert TrimLeft(" " + j) == TrimLeft(j);
  }

  /** Splitting the joined command gives back the arguments, when each argument is a
      non-empty word without whitespace. */
  lemma {:induction false} SplitWordsJoin(args: seq<string>)
    requires forall i :: 0 <= i < |args| ==> args[i] != "" && All(args[i], IsNotSpace)
    ensures SplitWords(Join(args, " ")) == args
    decreases |args|
  {
    if |args| > 0 {
      var a := args[0];
      var rest := Join(args[1..], " ");
      var s := Join(args, " ");
      var tail := if |args| == 1 then "" else " " + rest;
      assert s == a + tail;
      SpanAt(s, 0, 0, IsSpace);
      assert TrimLeft(s) == s;
      SpanAt(s, 0, |a|, IsNotSpace);
      assert s[..|a|] == a && s[|a|..] == tail;
      SplitWordsJoin(args[1..]);
      if |args| > 1 {
        SplitWordsAfterSpace(rest);
      }
      assert [a] + args[1..] == args;
    }
  }

  // ---------------------------------------------------------------------------------
  // Duplicate removal

  /** The first occurrence of each argument, in order. */
  function Dedup(s: seq<string>): seq<string> {
    if s == [] then []
    else
      var d := Dedup(s[..|s| - 1]);
      if s[|s| - 1] in d then d else d + [s[|s| - 1]]
  }

  predicate NoDuplicates(s: seq<string>) {
    forall i, j :: 0 <= i < j < |s| ==> s[i] != s[j]
  }

  /** `a` is `b` with some elements left out. */
  predicate IsSubsequence(a: seq<string>, b: seq<string>)
    decreases |b|
  {
    if a == [] then true
    else if b == [] then false
    else if a[|a| - 1] == b[|b| - 1] then IsSubsequence(a[..|a| - 1], b[..|b| - 1])
    else IsSubsequence(a, b[..|b| - 1])
  }

  lemma {:induction false} DedupSameElements(s: seq<string>)
    ensures forall x :: x in Dedup(s) <==> x in s
    decreases |s|
  {
    if s != [] {
      DedupSameElements(s[..|s| - 1]);
      assert s == s[..|s| - 1] + [s[|s| - 1]];
    }
  }

  lemma {:induction false} DedupNoDuplicates(s: seq<string>)
    ensures NoDuplicates(Dedup(s))
    decreases |s|
  {
    if s != [] {
      DedupNoDuplicates(s[..|s| - 1]);
    }
  }

  lemma {:induction false} SubsequenceDropLast(a: seq<string>, b: seq<string>)
    requires a != [] && IsSubsequence(a, b)
    ensures IsSubsequence(a[..|a| - 1], b)
    decreases |b|
  {
    var a', b' := a[..|a| - 1], b[..|b| - 1];
    if a[|a| - 1] == b[|b| - 1] {
      if a' != [] {
        SubsequenceDropLast(a', b');
      }
    } else {
      SubsequenceDropLast(a, b');
      if a' != [] {
        SubsequenceDropLast(a', b');
      }
    }
  }

  lemma SubsequenceExtend(a: seq<string>, b: seq<string>, x: string)
    requires IsSubsequence(a, b)
    ensures IsSubsequence(a, b + [x])
  {
    assert (b + [x])[..|b|] == b;
    if a != [] && a[|a| - 1] == x {
      SubsequenceDropLast(a, b);
    }
  }

  lemma {:induction false} DedupSubsequence(s: seq<string>)
    ensures IsSubsequence(Dedup(s), s)
    decreases |s|
  {
    if s != [] {
      var p, x := s[..|s| - 1], s[|s| - 1];
      DedupSubsequence(p);
      assert s == p + [x];
      if x in Dedup(p) {
        SubsequenceExtend(Dedup(p), p, x);
      } else {
        assert (Dedup(p) + [x])[..|Dedup(p)|] == Dedup(p);
      }
    }
  }

  /** A list without duplicates is left as it is, so removing duplicates twice is the
      same as removing them once. */
  lemma {:induction false} DedupOfDistinct(s: seq<string>)
    requires NoDuplicates(s)
    ensures Dedup(s) == s
    decreases |s|
  {
    if s != [] {
      var p := s[..|s| - 1];
      DedupOfDistinct(p);
      DedupSameElements(p);
      assert s[|s| - 1] !in p;
      assert s == p + [s[|s| - 1]];
    }
  }

  lemma DedupIdempotent(s: seq<string>)
    ensures Dedup(Dedup(s)) == Dedup(s)
  {
    DedupNoDuplicates(s);
    DedupOfDistinct(Dedup(s));
  }

  // ---------------------------------------------------------------------------------
  // The builder object

  /** `Cmd_Builder` with the attributes its subclasses' constructors set. */
  class CmdBuilder {
    var objFile: string
    var cmdArgList: Option<seq<string>>

    constructor (objFile: string, cmdArgList: Option<seq<string>>)
      ensures this.objFile == objFile && this.cmdArgList == cmdArgList
    {
      this.objFile := objFile;
      this.cmdArgList := cmdArgList;
    }

    /** Constructing an `Obj_Builder` or `Archive_Builder`: a new builder, or the
        exception the constructor raises. */
    static method Create(buildPath: string, source: string, recipe: Option<string>, fs: Mtimes,
                         tokenize: string -> seq<string>) returns (r: Outcome<CmdBuilder>)
      ensures var p := Plan(buildPath, source, recipe, fs, tokenize);
              (p.Err? ==> r == Err(p.error))
              && (p.Ok? ==> r.Ok? && fresh(r.value)
                            && r.value.objFile == p.value.objFile && r.value.cmdArgList == p.value.cmdArgList)
    {
      var p := Plan(buildPath, source, recipe, fs, tokenize);
      if p.Err? {
        return Err(p.error);
      }
      var b := new CmdBuilder(p.value.objFile, p.value.cmdArgList);
      return Ok(b);
    }

    /** `remove_duplicate_args`: None for a missing or empty list; otherwise the first
        occurrence of each argument, in order. */
    method RemoveDuplicateArgs() returns (r: Option<seq<string>>)
      ensures r.None? <==> cmdArgList.None? || cmdArgList.value == []
      ensures r.Some? ==> r.value == Dedup(cmdArgList.value)
      ensures r.Some? ==> NoDuplicates(r.value) && IsSubsequence(r.value, cmdArgList.value)
                          && forall x :: x in r.value <==> x in cmdArgList.value
    {
      if cmdArgList.None? || cmdArgList.value == [] {
        return None;
      }
      var args := cmdArgList.value;
      var seen: set<string> := {};
      var kept: seq<string> := [];
      for i := 0 to |args|
        invariant kept == Dedup(args[..i])
        invariant forall x :: x in seen <==> x in args[..i]
      {
        DedupSameElements(args[..i]);
        assert args[..i + 1] == args[..i] + [args[i]];
        if args[i] !in seen {
          seen := seen + {args[i]};
          kept := kept + [args[i]];
        }
      }
      assert args[..|args|] == args;
      DedupNoDuplicates(args);
      DedupSubsequence(args);
      DedupSameElements(args);
      return Some(kept);
    }

    /** `fetch_cmd`: the arguments joined by single spaces, or None when there are none. */
    function FetchCmd(): (r: Option<string>)
      reads this
      ensures r.None? <==> cmdArgList.None? || cmdArgList.value == []
      ensures r.Some? && (forall i :: 0 <= i < |cmdArgList.value| ==>
                            cmdArgList.value[i] != "" && All(cmdArgList.value[i], IsNotSpace))
              ==> SplitWords(r.value) == cmdArgList.value
      ensures r.Some? && (forall i :: 0 <= i < |cmdArgList.value| ==> ' ' !in cmdArgList.value[i])
              ==> Split(r.value, " ") == cmdArgList.value
    {
      if cmdArgList.None? || cmdArgList.value == [] then None
      else
        JoinedArgs(cmdArgList.value);
        Some(Join(cmdArgList.value, " "))
    }
  }

  /** Arguments joined by single spaces come back apart: split on whitespace when none is
      empty or holds whitespace, and split on `" "` when none holds a space. */
  lemma JoinedArgs(args: seq<string>)
    requires args != []
    ensures (forall i :: 0 <= i < |args| ==> args[i] != "" && All(args[i], IsNotSpace))
            ==> SplitWords(Join(args, " ")) == args
    ensures (forall i :: 0 <= i < |args| ==> ' ' !in args[i]) ==> Split(Join(args, " "), " ") == args
  {
    if forall i :: 0 <= i < |args| ==> args[i] != "" && All(args[i], IsNotSpace) {
      SplitWordsJoin(args);
    }
    if forall i :: 0 <= i < |args| ==> ' ' !in args[i] {
      forall i | 0 <= i < |args|
        ensures !Contains(args[i], " ")
      {
        CharAbsent(args[i], " ", 0);
      }
      SplitJoin(args, " ");
    }
  }
}

/** Text primitives shared by the configuration loaders, the command builder and the
    sketch preprocessor: the character classes of Python 2's `re` module in ASCII mode,
    the greedy runs that the regular expressions of the source reduce to, and the
    string methods `strip`, `replace`, `split` and `join`. Strings are `seq<char>`. */
module Text {

  /** `\s`; also exactly the characters `str.strip()` removes. */
  predicate IsSpace(c: char) {
    c == ' ' || c == '\t' || c == '\n' || c == '\r' || c == '\U{B}' || c == '\U{C}'
  }

  predicate IsNotSpace(c: char) { !IsSpace(c) }

  /** `\w`. */
  predicate IsWordChar(c: char) {
    ('a' <= c <= 'z') || ('A' <= c <= 'Z') || ('0' <= c <= '9') || c == '_'
  }

  /** `[\w.]`, the characters of a dotted configuration name. */
  predicate IsNameChar(c: char) { IsWordChar(c) || c == '.' }

  predicate IsNotHash(c: char) { c != '#' }

  predicate All(s: string, p: char -> bool) {
    forall i :: 0 <= i < |s| ==> p(s[i])
  }

  /** The end of the longest run of characters satisfying `p` that starts at `i`:
      where a greedy `[...]*` starting at `i` stops. */
  function Span(s: string, i: nat, p: char -> bool): (j: nat)
    requires i <= |s|
    ensures i <= j <= |s|
    ensures forall k :: i <= k < j ==> p(s[k])
    ensures j == |s| || !p(s[j])
    decreases |s| - i
  {
    if i == |s| || !p(s[i]) then i else Span(s, i + 1, p)
  }

  /** A run is determined by where it stops. */
  lemma {:induction false} SpanAt(s: string, i: nat, j: nat, p: char -> bool)
    requires i <= j <= |s|
    requires forall k :: i <= k < j ==> p(s[k])
    requires j == |s| || !p(s[j])
    ensures Span(s, i, p) == j
    decreases j - i
  {
    if i < j {
      SpanAt(s, i + 1, j, p);
    }
  }

  /** Splitting off the first element of a concatenation. */
  lemma HeadTail<T>(a: seq<T>, b: seq<T>)
    requires a != []
    ensures a + b == [a[0]] + (a[1..] + b)
  {
  }

  /** `part` occurs in `s` at position `i`. */
  predicate Occurs(s: string, i: nat, part: string) {
    i + |part| <= |s| && forall k :: 0 <= k < |part| ==> s[i + k] == part[k]
  }

  /** Both halves of a concatenation occur in it. */
  lemma OccursConcat(x: string, y: string)
    ensures Occurs(x + y, 0, x) && Occurs(x + y, |x|, y)
  {
  }

  /** An occurrence inside an occurrence. */
  lemma OccursWithin(s: string, i: nat, t: string, j: nat, part: string)
    requires Occurs(s, i, t) && Occurs(t, j, part)
    ensures Occurs(s, i + j, part)
  {
    forall k | 0 <= k < |part| ensures s[i + j + k] == part[k] {
      assert s[i + (j + k)] == t[j + k];
    }
  }

  lemma AllConcat(x: string, y: string, p: char -> bool)
    requires All(x, p) && All(y, p)
    ensures All(x + y, p)
  {
  }

  lemma OccursSlice(s: string, i: nat, part: string)
    requires Occurs(s, i, part)
    ensures s[i..i + |part|] == part
  {
  }

  /** The run that starts where `part` occurs covers `part` exactly when `part` is in
      the class and what follows it is not. */
  lemma SpanOver(s: string, i: nat, part: string, p: char -> bool)
    requires Occurs(s, i, part) && All(part, p)
    requires i + |part| == |s| || !p(s[i + |part|])
    ensures Span(s, i, p) == i + |part|
  {
    forall k | i <= k < i + |part| ensures p(s[k]) {
      assert s[i + (k - i)] == part[k - i];
    }
    SpanAt(s, i, i + |part|, p);
  }

  /** A run measured inside a suffix ends at the same place. */
  lemma {:induction false} SpanShift(s: string, i: nat, k: nat, p: char -> bool)
    requires i + k <= |s|
    ensures Span(s, i + k, p) == i + Span(s[i..], k, p)
    decreases |s| - i - k
  {
    if i + k < |s| {
      assert s[i..][k] == s[i + k];
      if p(s[i + k]) {
        SpanShift(s, i, k + 1, p);
      }
    }
  }

  /** A run that starts a suffix `run + tail` stops where `tail` begins. */
  lemma RunAfter(s: string, i: nat, run: string, tail: string, p: char -> bool)
    requires i <= |s| && s[i..] == run + tail && All(run, p) && tail != [] && !p(tail[0])
    ensures Span(s, i, p) == i + |run| && s[i..i + |run|] == run && s[i + |run|] == tail[0]
    ensures s[i + |run|..] == tail
  {
    assert s[i + |run|..] == s[i..][|run|..];
    forall k | 0 <= k < |run| ensures s[i + k] == run[k] {
      assert s[i..][k] == s[i + k];
    }
    assert s[i..][|run|] == s[i + |run|];
    SpanOver(s, i, run, p);
    OccursSlice(s, i, run);
  }

  /** A run never passes a character outside its class. */
  lemma {:induction false} SpanBound(s: string, i: nat, j: nat, p: char -> bool)
    requires i <= j < |s| && !p(s[j])
    ensures Span(s, i, p) <= j
    decreases j - i
  {
    if i < j && p(s[i]) {
      SpanBound(s, i + 1, j, p);
    }
  }

  predicate StartsWith(s: string, prefix: string) {
    |prefix| <= |s| && s[..|prefix|] == prefix
  }

  /** A prefix extended by the text that follows it in `s` is still a prefix. */
  lemma StartsWithExtend(s: string, prefix: string, k: nat)
    requires StartsWith(s, prefix) && |prefix| <= k <= |s|
    ensures StartsWith(s, prefix + s[|prefix|..k])
  {
    assert forall j :: 0 <= j < k ==> (prefix + s[|prefix|..k])[j] == s[j];
  }

  predicate EndsWith(s: string, suffix: string) {
    |suffix| <= |s| && s[|s| - |suffix|..] == suffix
  }

  /** Python's `t in s` for strings. */
  predicate Contains(s: string, t: string)
    decreases |s|
  {
    StartsWith(s, t) || (|s| > 0 && Contains(s[1..], t))
  }

  lemma {:induction false} ContainsAt(s: string, t: string, i: nat)
    requires i + |t| <= |s| && s[i..i + |t|] == t
    ensures Contains(s, t)
    decreases i
  {
    if i > 0 {
      assert s[1..][i - 1..i - 1 + |t|] == s[i..i + |t|];
      ContainsAt(s[1..], t, i - 1);
    }
  }

  lemma {:induction false} ContainsWitness(s: string, t: string) returns (i: nat)
    requires Contains(s, t)
    ensures i + |t| <= |s| && s[i..i + |t|] == t
    decreases |s|
  {
    if StartsWith(s, t) {
      i := 0;
    } else {
      var j := ContainsWitness(s[1..], t);
      assert s[1..][j..j + |t|] == s[j + 1..j + 1 + |t|];
      i := j + 1;
    }
  }

  /** A string lacking one of the characters of `t` does not contain `t`. */
  lemma {:induction false} CharAbsent(s: string, t: string, k: nat)
    requires k < |t| && t[k] !in s
    ensures !Contains(s, t)
    decreases |s|
  {
    if |t| <= |s| {
      assert s[..|t|][k] == s[k] && s[k] in s;
    }
    if |s| > 0 {
      assert forall c :: c in s[1..] ==> c in s;
      CharAbsent(s[1..], t, k);
    }
  }

  /** Whitespace in front of a string cannot complete a word that starts with a
      non-space. */
  lemma {:induction false} NotContainedPadded(w: string, s: string, t: string)
    requires All(w, IsSpace) && t != [] && !IsSpace(t[0]) && !Contains(s, t)
    ensures !Contains(w + s, t)
    decreases |w|
  {
    if w == [] {
      assert w + s == s;
    } else {
      assert (w + s)[0] == w[0] && (w + s)[1..] == w[1..] + s;
      NotContainedPadded(w[1..], s, t);
    }
  }

  /** Where the leading whitespace of a line ends: the greedy `^\s*`. */
  function Indent(s: string): nat
    ensures Indent(s) <= |s|
  {
    Span(s, 0, IsSpace)
  }

  /** `s[..i]` where `i` is the first `#`: what `[^#]*` matches at the start of `s`. */
  function BeforeHash(s: string): string {
    s[..Span(s, 0, IsNotHash)]
  }

  function TrimLeft(s: string): string {
    s[Span(s, 0, IsSpace)..]
  }

  function TrimRight(s: string): (r: string)
    ensures |r| <= |s| && r == s[..|r|]
    ensures All(s[|r|..], IsSpace)
    ensures r == "" || !IsSpace(r[|r| - 1])
  {
    if |s| > 0 && IsSpace(s[|s| - 1]) then
      var r := TrimRight(s[..|s| - 1]);
      assert forall k :: |r| <= k < |s| - 1 ==> s[k] == s[..|s| - 1][k];
      r
    else s
  }

  /** Python's `str.strip()`. */
  function Strip(s: string): string {
    TrimRight(TrimLeft(s))
  }

  /** A stripped string neither starts nor ends with whitespace, and stripping it again
      changes nothing. */
  lemma StripIsTrimmed(s: string)
    ensures var r := Strip(s); (r == "" || (!IsSpace(r[0]) && !IsSpace(r[|r| - 1]))) && Strip(r) == r
  {
    var t := TrimLeft(s);
    var r := TrimRight(t);
    if r != "" {
      assert r[0] == t[0];
      SpanAt(r, 0, 0, IsSpace);
      assert TrimLeft(r) == r;
    } else {
      assert TrimLeft(r) == r;
    }
  }

  /** Python's `str.replace(pat, rep)`: every occurrence of `pat`, scanning from the left
      and never overlapping, is replaced by `rep`. */
  function ReplaceAll(s: string, pat: string, rep: string): string
    requires pat != ""
    decreases |s|
  {
    if |s| < |pat| then s
    else if s[..|pat|] == pat then rep + ReplaceAll(s[|pat|..], pat, rep)
    else [s[0]] + ReplaceAll(s[1..], pat, rep)
  }

  /** Python's `str.split(sep)` for a non-empty separator. */
  function Split(s: string, sep: string): (parts: seq<string>)
    requires sep != ""
    ensures |parts| > 0
    decreases |s|
  {
    if |s| < |sep| then [s]
    else if s[..|sep|] == sep then [""] + Split(s[|sep|..], sep)
    else
      var rest := Split(s[1..], sep);
      [[s[0]] + rest[0]] + rest[1..]
  }

  /** Python's `sep.join(parts)`. */
  function Join(parts: seq<string>, sep: string): string
  {
    if |parts| == 0 then ""
    else if |parts| == 1 then parts[0]
    else parts[0] + sep + Join(parts[1..], sep)
  }

  lemma JoinConsHead(c: char, parts: seq<string>, sep: string)
    requires |parts| > 0
    ensures Join([[c] + parts[0]] + parts[1..], sep) == [c] + Join(parts, sep)
  {
    var q := [[c] + parts[0]] + parts[1..];
    assert q[1..] == parts[1..];
  }

  lemma JoinCons(a: string, parts: seq<string>, sep: string)
    requires |parts| > 0
    ensures Join([a] + parts, sep) == a + sep + Join(parts, sep)
  {
    assert ([a] + parts)[1..] == parts;
  }

  /** Replacing is splitting on the pattern and joining with the replacement. */
  lemma {:induction false} ReplaceAllIsJoinOfSplit(s: string, pat: string, rep: string)
    requires pat != ""
    ensures ReplaceAll(s, pat, rep) == Join(Split(s, pat), rep)
    decreases |s|
  {
    if |s| < |pat| {
    } else if s[..|pat|] == pat {
      ReplaceAllIsJoinOfSplit(s[|pat|..], pat, rep);
      var rest := Split(s[|pat|..], pat);
      assert ([""] + rest)[1..] == rest;
    } else {
      ReplaceAllIsJoinOfSplit(s[1..], pat, rep);
      JoinConsHead(s[0], Split(s[1..], pat), rep);
      assert [s[0]] + s[1..] == s;
    }
  }

  lemma {:induction false} ReplaceBySelf(s: string, pat: string)
    requires pat != ""
    ensures ReplaceAll(s, pat, pat) == s
    decreases |s|
  {
    if |s| < |pat| {
    } else if s[..|pat|] == pat {
      ReplaceBySelf(s[|pat|..], pat);
      assert s[..|pat|] + s[|pat|..] == s;
    } else {
      ReplaceBySelf(s[1..], pat);
      assert [s[0]] + s[1..] == s;
    }
  }

  /** Joining the pieces of a split with the same separator gives back the string. */
  lemma JoinSplit(s: string, sep: string)
    requires sep != ""
    ensures Join(Split(s, sep), sep) == s
  {
    ReplaceAllIsJoinOfSplit(s, sep, sep);
    ReplaceBySelf(s, sep);
  }

  /** No proper suffix of `sep` is also a prefix of it, so two occurrences of `sep`
      can never overlap. */
  predicate NoBorder(sep: string) {
    forall k :: 0 < k < |sep| ==> sep[k..] != sep[..|sep| - k]
  }

  lemma {:induction false} SplitWithoutSeparator(a: string, sep: string)
    requires sep != "" && !Contains(a, sep)
    ensures Split(a, sep) == [a]
    decreases |a|
  {
    if |a| >= |sep| {
      assert !StartsWith(a, sep);
      SplitWithoutSeparator(a[1..], sep);
      assert [a[0]] + a[1..] == a;
    }
  }

  lemma {:induction false} SplitAfterPart(a: string, rest: string, sep: string)
    requires sep != "" && NoBorder(sep) && !Contains(a, sep)
    ensures Split(a + sep + rest, sep) == [a] + Split(rest, sep)
    decreases |a|
  {
    var s := a + sep + rest;
    if a == "" {
      assert s == sep + rest;
      assert s[..|sep|] == sep && s[|sep|..] == rest;
    } else {
      if |a| >= |sep| {
        assert s[..|sep|] == a[..|sep|];
        assert !StartsWith(a, sep);
      } else {
        var k := |a|;
        assert sep[k..] != sep[..|sep| - k];
        assert s[..|sep|][k..] == sep[..|sep| - k];
      }
      assert s[..|sep|] != sep;
      assert s[1..] == a[1..] + sep + rest;
      SplitAfterPart(a[1..], rest, sep);
      assert [a[0]] + a[1..] == a;
    }
  }

  /** Splitting a join recovers the parts, when no part contains the separator and the
      separator cannot overlap itself. */
  lemma {:induction false} SplitJoin(parts: seq<string>, sep: string)
    requires sep != "" && NoBorder(sep) && |parts| > 0
    requires forall i :: 0 <= i < |parts| ==> !Contains(parts[i], sep)
    ensures Split(Join(parts, sep), sep) == parts
    decreases |parts|
  {
    if |parts| == 1 {
      SplitWithoutSeparator(parts[0], sep);
    } else {
      SplitJoin(parts[1..], sep);
      SplitAfterPart(parts[0], Join(parts[1..], sep), sep);
      assert [parts[0]] + parts[1..] == parts;
    }
  }

  /** Every occurrence of the pattern between the parts is replaced, and nothing else. */
  lemma ReplaceAllJoin(parts: seq<string>, pat: string, rep: string)
    requires pat != "" && NoBorder(pat) && |parts| > 0
    requires forall i :: 0 <= i < |parts| ==> !Contains(parts[i], pat)
    ensures ReplaceAll(Join(parts, pat), pat, rep) == Join(parts, rep)
  {
    ReplaceAllIsJoinOfSplit(Join(parts, pat), pat, rep);
    SplitJoin(parts, pat);
  }

  /** A prefix in which the pattern's first character does not occur is copied as is. */
  lemma {:induction false} ReplaceAllSkipsPrefix(x: string, y: string, pat: string, rep: string)
    requires pat != "" && pat[0] !in x
    ensures ReplaceAll(x + y, pat, rep) == x + ReplaceAll(y, pat, rep)
    decreases |x|
  {
    if x != [] {
      var s := x + y;
      if |s| >= |pat| {
        assert x[0] in x;
        assert s[..|pat|][0] == x[0] != pat[0];
        assert ReplaceAll(s, pat, rep) == [s[0]] + ReplaceAll(s[1..], pat, rep);
        assert s[1..] == x[1..] + y;
        ReplaceAllSkipsPrefix(x[1..], y, pat, rep);
        assert [x[0]] + x[1..] == x;
      } else {
        assert |y| < |pat|;
        assert ReplaceAll(y, pat, rep) == y;
      }
    } else {
      assert x + y == y;
    }
  }

  lemma ReplaceAllAbsent(s: string, pat: string, rep: string)
    requires pat != "" && pat[0] !in s
    ensures ReplaceAll(s, pat, rep) == s
  {
    ReplaceAllSkipsPrefix(s, "", pat, rep);
    assert s + "" == s;
  }
}

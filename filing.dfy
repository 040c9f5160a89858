/** The loop shared by the platform.txt and boards.txt readers: each line is filed
    into one of two lists that the caller owns, in the order the constructor takes
    them, or is skipped, or raises an exception that ends the constructor with the
    earlier appends kept. */
module Filing {
  import opened Config

  /** Which of the caller's two lists a line goes to, in parameter order. */
  datatype Slot = First | Second

  /** What one line does: nothing, one pair appended to one list, or an exception
      (`.group` called on a failed match). */
  datatype Filing = Ignore | File(slot: Slot, entry: Entry) | Raise

  /** How many lines are processed: the index of the first line that raises, or all. */
  function Processed(fs: seq<Filing>): (n: nat)
    ensures n <= |fs|
    ensures forall i :: 0 <= i < n ==> fs[i] != Raise
    ensures n < |fs| ==> fs[n] == Raise
  {
    if fs == [] || fs[0] == Raise then 0
    else
      var n := Processed(fs[1..]);
      assert forall i :: 1 <= i < n + 1 ==> fs[i] == fs[1..][i - 1];
      1 + n
  }

  /** What one filing appends to list `s`. */
  function FiledTo(f: Filing, s: Slot): seq<Entry> {
    if f.File? && f.slot == s then [f.entry] else []
  }

  /** What one filing appends to a list passed for both slots. */
  function FiledAny(f: Filing): seq<Entry> {
    if f.File? then [f.entry] else []
  }

  /** The entries that a run of lines files into list `s`, in line order. */
  function Targeted(fs: seq<Filing>, s: Slot): (es: seq<Entry>)
    ensures forall e :: e in es ==> File(s, e) in fs
    decreases |fs|
  {
    if fs == [] then []
    else
      var init := fs[..|fs| - 1];
      var es := Targeted(init, s);
      assert forall f :: f in init ==> f in fs;
      es + FiledTo(fs[|fs| - 1], s)
  }

  /** The entries of both slots, in line order: what one list receives when the
      caller passes the same list twice. */
  function Entries(fs: seq<Filing>): (es: seq<Entry>)
    ensures |es| <= |fs|
    decreases |fs|
  {
    if fs == [] then []
    else Entries(fs[..|fs| - 1]) + FiledAny(fs[|fs| - 1])
  }

  /** Filing is line by line: a file split in two files the two halves in turn. */
  lemma {:induction false} TargetedAppend(a: seq<Filing>, b: seq<Filing>, s: Slot)
    ensures Targeted(a + b, s) == Targeted(a, s) + Targeted(b, s)
    decreases |b|
  {
    if b == [] {
      assert a + b == a;
    } else {
      var b' := b[..|b| - 1];
      assert (a + b)[..|a + b| - 1] == a + b';
      assert (a + b)[|a + b| - 1] == b[|b| - 1];
      TargetedAppend(a, b', s);
    }
  }

  /** The two lists together receive exactly the entries a shared list would. */
  lemma {:induction false} EntriesSplit(fs: seq<Filing>)
    ensures multiset(Entries(fs)) == multiset(Targeted(fs, First)) + multiset(Targeted(fs, Second))
    decreases |fs|
  {
    if fs != [] {
      EntriesSplit(fs[..|fs| - 1]);
    }
  }

  /** The lists after the first `i` filings, none of which raised: `a` and `b` hold
      the first and the second list, started from `a0` and `b0`; when `shared`, the
      caller passed one list for both. */
  ghost predicate Filed(fs: seq<Filing>, i: nat, a0: seq<Entry>, b0: seq<Entry>,
                        a: seq<Entry>, b: seq<Entry>, shared: bool) {
    i <= Processed(fs) &&
    (shared ==> a == b && a == a0 + Entries(fs[..i])) &&
    (!shared ==> a == a0 + Targeted(fs[..i], First) && b == b0 + Targeted(fs[..i], Second))
  }

  /** One more line adds its own filing to each list. */
  lemma ExtendByOne(fs: seq<Filing>, i: nat)
    requires i < |fs|
    ensures Entries(fs[..i + 1]) == Entries(fs[..i]) + FiledAny(fs[i])
    ensures Targeted(fs[..i + 1], First) == Targeted(fs[..i], First) + FiledTo(fs[i], First)
    ensures Targeted(fs[..i + 1], Second) == Targeted(fs[..i], Second) + FiledTo(fs[i], Second)
  {
    assert fs[..i + 1][..i] == fs[..i];
  }

  lemma FileStep(fs: seq<Filing>, i: nat, a0: seq<Entry>, b0: seq<Entry>,
                 a: seq<Entry>, b: seq<Entry>, shared: bool, s: Slot, e: Entry)
    requires Filed(fs, i, a0, b0, a, b, shared) && i < |fs| && fs[i] == File(s, e)
    ensures shared ==> Filed(fs, i + 1, a0, b0, a + [e], b + [e], shared)
    ensures !shared && s == First ==> Filed(fs, i + 1, a0, b0, a + [e], b, shared)
    ensures !shared && s == Second ==> Filed(fs, i + 1, a0, b0, a, b + [e], shared)
  {
    ExtendByOne(fs, i);
    assert i + 1 <= Processed(fs) by { assert fs[i] != Raise; }
    if shared {
      AppendOne(a0, Entries(fs[..i]), e);
    } else if s == First {
      AppendOne(a0, Targeted(fs[..i], First), e);
      assert Targeted(fs[..i + 1], Second) == Targeted(fs[..i], Second);
    } else {
      AppendOne(b0, Targeted(fs[..i], Second), e);
      assert Targeted(fs[..i + 1], First) == Targeted(fs[..i], First);
    }
  }

  lemma AppendOne(x: seq<Entry>, y: seq<Entry>, e: Entry)
    ensures (x + y) + [e] == x + (y + [e])
  {
  }

  lemma IgnoreStep(fs: seq<Filing>, i: nat, a0: seq<Entry>, b0: seq<Entry>,
                   a: seq<Entry>, b: seq<Entry>, shared: bool)
    requires Filed(fs, i, a0, b0, a, b, shared) && i < |fs| && fs[i] == Ignore
    ensures Filed(fs, i + 1, a0, b0, a, b, shared)
  {
    ExtendByOne(fs, i);
    assert i + 1 <= Processed(fs) by { assert fs[i] != Raise; }
  }

  /** The reading stops at the end or at the first line that raises. */
  lemma FiledDone(fs: seq<Filing>, i: nat, a0: seq<Entry>, b0: seq<Entry>,
                  a: seq<Entry>, b: seq<Entry>, shared: bool)
    requires Filed(fs, i, a0, b0, a, b, shared) && (i == |fs| || fs[i] == Raise)
    ensures Processed(fs) == i && (Raise in fs <==> i < |fs|)
  {
  }

  /** The constructor's loop over any classification of lines: appends each pair to
      the list its filing selects, and stops at the first line that raises, keeping
      what was appended before it. */
  method FileLines(lines: seq<string>, classify: string -> Filing, first: EntryList, second: EntryList)
    returns (raised: bool)
    modifies first, second
    ensures raised <==> Raise in EachLine(lines, classify)
    ensures first != second ==>
      var fs := EachLine(lines, classify);
      first.items == old(first.items) + Targeted(fs[..Processed(fs)], First) &&
      second.items == old(second.items) + Targeted(fs[..Processed(fs)], Second)
    ensures first == second ==>
      var fs := EachLine(lines, classify);
      first.items == old(first.items) + Entries(fs[..Processed(fs)])
  {
    ghost var fs := EachLine(lines, classify);
    ghost var shared := first == second;
    var i := 0;
    while i < |lines|
      invariant Filed(fs, i, old(first.items), old(second.items), first.items, second.items, shared)
    {
      var f := classify(lines[i]);
      match f {
        case Raise =>
          FiledDone(fs, i, old(first.items), old(second.items), first.items, second.items, shared);
          assert fs[..Processed(fs)] == fs[..i];
          return true;
        case Ignore =>
          IgnoreStep(fs, i, old(first.items), old(second.items), first.items, second.items, shared);
        case File(s, e) =>
          FileStep(fs, i, old(first.items), old(second.items), first.items, second.items, shared, s, e);
          if s == First {
            first.items := first.items + [e];
          } else {
            second.items := second.items + [e];
          }
      }
      i := i + 1;
    }
    FiledDone(fs, i, old(first.items), old(second.items), first.items, second.items, shared);
    assert fs[..Processed(fs)] == fs[..i];
    return false;
  }
}

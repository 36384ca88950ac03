/**
 * `WriteToLogFile`: the new records (a `std::multiset<std::wstring>`) are
 * merged with the lines already in the log file, and every element of the
 * merged multiset is written back, in ascending order, one per line.
 *
 * A `std::multiset` keeps its elements sorted and inserts a new element after
 * the ones equal to it; it is modelled as a sorted sequence with that
 * insertion. Strings are ordered as `std::wstring::operator<` orders them:
 * lexicographically by character code, a proper prefix first.
 */
module LogFile {
  import opened Wrappers

  /** `a < b` for wide strings. */
  predicate Below(a: string, b: string)
  {
    if a == [] then b != []
    else if b == [] then false
    else if a[0] != b[0] then a[0] < b[0]
    else Below(a[1..], b[1..])
  }

  lemma {:induction false} BelowIrreflexive(a: string)
    ensures !Below(a, a)
  {
    if a != [] { BelowIrreflexive(a[1..]); }
  }

  lemma {:induction false} BelowTransitive(a: string, b: string, c: string)
    requires Below(a, b) && Below(b, c)
    ensures Below(a, c)
  {
    if a != [] && b != [] && c != [] && a[0] == b[0] && b[0] == c[0] {
      BelowTransitive(a[1..], b[1..], c[1..]);
    }
  }

  /** Any two different strings are ordered one way or the other. */
  lemma {:induction false} BelowTotal(a: string, b: string)
    requires a != b
    ensures Below(a, b) || Below(b, a)
  {
    if a != [] && b != [] && a[0] == b[0] {
      assert a == [a[0]] + a[1..] && b == [b[0]] + b[1..];
      BelowTotal(a[1..], b[1..]);
    }
  }

  /** Ascending order with repetitions allowed: no element is below an earlier one. */
  predicate Sorted(s: seq<string>)
  {
    forall i, j :: 0 <= i < j < |s| ==> !Below(s[j], s[i])
  }

  /** `std::multiset::insert`: `x` goes after every element that is not above it. */
  function Insert(s: seq<string>, x: string): (r: seq<string>)
    ensures multiset(r) == multiset(s) + multiset{x}
  {
    if s == [] then [x]
    else if Below(x, s[0]) then [x] + s
    else
      var r := [s[0]] + Insert(s[1..], x);
      assert s == [s[0]] + s[1..];
      r
  }

  /** Insertion keeps a sorted sequence sorted. */
  lemma {:induction false} InsertSorted(s: seq<string>, x: string)
    requires Sorted(s)
    ensures Sorted(Insert(s, x))
  {
    var r := Insert(s, x);
    if s == [] {
    } else if Below(x, s[0]) {
      forall i, j | 0 <= i < j < |r| ensures !Below(r[j], r[i]) {
        if i == 0 {
          assert r[j] == s[j - 1];
          if Below(r[j], x) {
            BelowTransitive(r[j], x, s[0]);
            if j == 1 { BelowIrreflexive(s[0]); }
            assert false;
          }
        }
      }
    } else {
      var t := Insert(s[1..], x);
      assert Sorted(s[1..]);
      InsertSorted(s[1..], x);
      assert r == [s[0]] + t;
      forall i, j | 0 <= i < j < |r| ensures !Below(r[j], r[i]) {
        if i == 0 {
          assert r[j] in multiset(t);
          assert r[j] in multiset(s[1..]) || r[j] == x;
          if r[j] != x {
            var k :| 0 <= k < |s[1..]| && s[1..][k] == r[j];
            assert s[k + 1] == r[j];
          }
        }
      }
    }
  }

  /** The multiset after inserting every element of `xs`, first to last, into `s`. */
  function InsertAll(s: seq<string>, xs: seq<string>): (r: seq<string>)
    ensures multiset(r) == multiset(s) + multiset(xs)
  {
    if xs == [] then s
    else
      var init, last := xs[..|xs| - 1], xs[|xs| - 1];
      assert multiset(xs) == multiset(init) + multiset{last} by {
        assert xs == init + [last];
      }
      Insert(InsertAll(s, init), last)
  }

  /** The lines the merge keeps: all but those equal to "\n". */
  function Kept(lines: seq<string>): seq<string>
  {
    if lines == [] then []
    else if lines[|lines| - 1] == "\n" then Kept(lines[..|lines| - 1])
    else Kept(lines[..|lines| - 1]) + [lines[|lines| - 1]]
  }

  /** Index of the first '\n' of `t`, or |t|. */
  function LineEnd(t: string): (k: nat)
    ensures k <= |t|
    ensures '\n' !in t[..k]
    ensures k < |t| ==> t[k] == '\n'
  {
    if t == [] || t[0] == '\n' then 0
    else
      var k := 1 + LineEnd(t[1..]);
      assert t[..k] == [t[0]] + t[1..][..k - 1];
      k
  }

  /**
   * The lines `std::getline` yields on a stream holding `t`: the text between
   * line breaks, the break itself dropped; a last line without a break is
   * yielded, an empty text after the last break is not.
   */
  function GetLines(t: string): seq<string>
    decreases |t|
  {
    if t == [] then []
    else
      var k := LineEnd(t);
      if k == |t| then [t] else [t[..k]] + GetLines(t[k + 1..])
  }

  /** The lines read from the log file; a file that cannot be opened yields none. */
  function LinesOf(log: Option<string>): seq<string>
  {
    match log
    case None => []
    case Some(t) => GetLines(t)
  }

  /** The text of writing each line followed by `endl`. */
  function Render(lines: seq<string>): string
  {
    if lines == [] then [] else lines[0] + "\n" + Render(lines[1..])
  }

  /** The multiset the merge writes: the new records with every kept line of the old log inserted. */
  function MergedLines(records: seq<string>, log: Option<string>): seq<string>
  {
    InsertAll(records, Kept(LinesOf(log)))
  }

  lemma KeptSnoc(lines: seq<string>, l: string)
    ensures Kept(lines + [l]) == if l == "\n" then Kept(lines) else Kept(lines) + [l]
  {
    assert (lines + [l])[..|lines|] == lines;
  }

  lemma InsertAllSnoc(s: seq<string>, xs: seq<string>, x: string)
    ensures InsertAll(s, xs + [x]) == Insert(InsertAll(s, xs), x)
  {
    assert (xs + [x])[..|xs|] == xs;
  }

  lemma {:induction false} RenderSnoc(lines: seq<string>, l: string)
    ensures Render(lines + [l]) == Render(lines) + l + "\n"
  {
    if lines != [] {
      assert (lines + [l])[1..] == lines[1..] + [l];
      RenderSnoc(lines[1..], l);
    } else {
      assert Render([l]) == l + "\n" + Render([]);
    }
  }

  lemma InsertLinesStep(records: seq<string>, lines: seq<string>, i: nat)
    requires i < |lines|
    ensures InsertAll(records, Kept(lines[..i + 1]))
      == if lines[i] == "\n" then InsertAll(records, Kept(lines[..i]))
         else Insert(InsertAll(records, Kept(lines[..i])), lines[i])
  {
    assert lines[..i + 1] == lines[..i] + [lines[i]];
    KeptSnoc(lines[..i], lines[i]);
    if lines[i] != "\n" {
      InsertAllSnoc(records, Kept(lines[..i]), lines[i]);
    }
  }

  /** The `getline` loop of `WriteToLogFile`: every line other than "\n" is inserted into the multiset. */
  method InsertLines(records: seq<string>, lines: seq<string>) returns (tempSet: seq<string>)
    ensures tempSet == InsertAll(records, Kept(lines))
  {
    tempSet := records;
    var i := 0;
    while i < |lines|
      invariant 0 <= i <= |lines|
      invariant tempSet == InsertAll(records, Kept(lines[..i]))
    {
      InsertLinesStep(records, lines, i);
      if lines[i] != "\n" {
        tempSet := Insert(tempSet, lines[i]);
      }
      i := i + 1;
    }
    assert lines[..i] == lines;
  }

  /** The output loop of `WriteToLogFile`: each element, in iteration order, followed by `endl`. */
  method WriteLines(tempSet: seq<string>) returns (written: string)
    ensures written == Render(tempSet)
  {
    written := [];
    var j := 0;
    while j < |tempSet|
      invariant 0 <= j <= |tempSet|
      invariant written == Render(tempSet[..j])
    {
      assert tempSet[..j + 1] == tempSet[..j] + [tempSet[j]];
      RenderSnoc(tempSet[..j], tempSet[j]);
      written := written + tempSet[j] + "\n";
      j := j + 1;
    }
    assert tempSet[..j] == tempSet;
  }

  /**
   * `WriteToLogFile`: returns the new text of the log file, given the new
   * records and the old text (`None` when the file cannot be opened).
   */
  method WriteToLogFile(records: seq<string>, log: Option<string>) returns (written: string)
    requires Sorted(records)
    ensures written == Render(MergedLines(records, log))
  {
    var tempSet := InsertLines(records, LinesOf(log));
    written := WriteLines(tempSet);
  }

  /** Inserting every element of `xs` into a sorted sequence leaves it sorted. */
  lemma {:induction false} InsertAllSorted(s: seq<string>, xs: seq<string>)
    requires Sorted(s)
    ensures Sorted(InsertAll(s, xs))
  {
    if xs != [] {
      InsertAllSorted(s, xs[..|xs| - 1]);
      InsertSorted(InsertAll(s, xs[..|xs| - 1]), xs[|xs| - 1]);
    }
  }

  /** Kept removes every "\n" line and keeps every other line with its multiplicity. */
  lemma {:induction false} KeptCount(lines: seq<string>)
    ensures forall x :: multiset(Kept(lines))[x] == if x == "\n" then 0 else multiset(lines)[x]
  {
    if lines != [] {
      var init, last := lines[..|lines| - 1], lines[|lines| - 1];
      KeptCount(init);
      assert multiset(lines) == multiset(init) + multiset{last} by {
        assert lines == init + [last];
      }
      if last != "\n" {
        assert multiset(Kept(lines)) == multiset(Kept(init)) + multiset{last};
      }
    }
  }

  /** The first element of a sorted sequence is not above any of its elements. */
  lemma SortedHeadIsLeast(a: seq<string>, x: string)
    requires Sorted(a)
    requires x in a
    ensures !Below(x, a[0])
  {
    var k :| 0 <= k < |a| && a[k] == x;
    if k == 0 {
      BelowIrreflexive(x);
    }
  }

  lemma SortedTail(a: seq<string>)
    requires Sorted(a) && a != []
    ensures Sorted(a[1..])
  {
  }

  lemma MultisetTail(a: seq<string>)
    requires a != []
    ensures multiset(a[1..]) == multiset(a) - multiset{a[0]}
  {
    assert a == [a[0]] + a[1..];
  }

  /** A sorted sequence is determined by its multiset. */
  lemma {:induction false} SortedUnique(a: seq<string>, b: seq<string>)
    requires Sorted(a) && Sorted(b)
    requires multiset(a) == multiset(b)
    ensures a == b
  {
    if a != [] {
      assert a[0] in multiset(b) && b[0] in multiset(a);
      SortedHeadIsLeast(b, a[0]);
      SortedHeadIsLeast(a, b[0]);
      if a[0] != b[0] {
        BelowTotal(a[0], b[0]);
      }
      MultisetTail(a);
      MultisetTail(b);
      SortedTail(a);
      SortedTail(b);
      SortedUnique(a[1..], b[1..]);
      assert a == [a[0]] + a[1..] && b == [b[0]] + b[1..];
    }
  }

  /**
   * What is written is in ascending order and holds exactly the records and
   * the old lines other than "\n", duplicates included.
   */
  lemma MergedIsSortedUnion(records: seq<string>, log: Option<string>)
    requires Sorted(records)
    ensures Sorted(MergedLines(records, log))
    ensures multiset(MergedLines(records, log)) == multiset(records) + multiset(Kept(LinesOf(log)))
  {
    InsertAllSorted(records, Kept(LinesOf(log)));
  }

  /** What is written is THE ascending arrangement of those lines: any other one is equal to it. */
  lemma MergedIsUnique(records: seq<string>, log: Option<string>, t: seq<string>)
    requires Sorted(records) && Sorted(t)
    requires multiset(t) == multiset(records) + multiset(Kept(LinesOf(log)))
    ensures t == MergedLines(records, log)
  {
    MergedIsSortedUnion(records, log);
    SortedUnique(t, MergedLines(records, log));
  }

  lemma {:induction false} LineEndOf(line: string, rest: string)
    requires '\n' !in line
    ensures LineEnd(line + "\n" + rest) == |line|
  {
    if line != [] {
      assert (line + "\n" + rest)[1..] == line[1..] + "\n" + rest;
      LineEndOf(line[1..], rest);
    }
  }

  /** No line `getline` yields contains a line break. */
  lemma {:induction false} GetLinesHaveNoBreak(t: string)
    ensures forall l :: l in GetLines(t) ==> '\n' !in l
    decreases |t|
  {
    if t != [] {
      var k := LineEnd(t);
      if k < |t| {
        GetLinesHaveNoBreak(t[k + 1..]);
      }
    }
  }

  /**
   * The filter `tempStr != L"\n"` never removes anything: a line read by
   * `getline` cannot be "\n", so every line of the old log is kept.
   */
  lemma NewlineFilterIsVacuous(log: Option<string>)
    ensures Kept(LinesOf(log)) == LinesOf(log)
  {
    if log.Some? {
      GetLinesHaveNoBreak(log.value);
    }
    KeptAll(LinesOf(log));
  }

  lemma {:induction false} KeptAll(lines: seq<string>)
    requires forall l :: l in lines ==> '\n' !in l
    ensures Kept(lines) == lines
  {
    if lines != [] {
      var init := lines[..|lines| - 1];
      assert lines[|lines| - 1] in lines;
      assert '\n' in "\n";
      KeptAll(init);
      assert init + [lines[|lines| - 1]] == lines;
    }
  }

  /** Lines written with `endl` are read back by `getline` unchanged. */
  lemma {:induction false} GetLinesRender(lines: seq<string>)
    requires forall l :: l in lines ==> '\n' !in l
    ensures GetLines(Render(lines)) == lines
  {
    if lines != [] {
      var line, rest := lines[0], Render(lines[1..]);
      var t := Render(lines);
      assert t == line + "\n" + rest;
      LineEndOf(line, rest);
      assert t[..|line|] == line;
      assert t[|line| + 1..] == rest;
      GetLinesRender(lines[1..]);
      assert lines == [line] + lines[1..];
    }
  }

  /**
   * Writing back, with `endl`, the lines `getline` read from any text gives
   * that text, with a final line break added when it had none.
   */
  lemma {:induction false} RenderGetLines(t: string)
    ensures Render(GetLines(t)) == if t == [] || t[|t| - 1] == '\n' then t else t + "\n"
    decreases |t|
  {
    if t != [] {
      var k := LineEnd(t);
      if k == |t| {
        assert t[..k] == t;
        assert Render([t]) == t + "\n" + Render([]);
      } else {
        var u := t[k + 1..];
        assert t == t[..k] + "\n" + u;
        RenderGetLines(u);
        var lines := [t[..k]] + GetLines(u);
        assert lines[1..] == GetLines(u);
        assert Render(lines) == t[..k] + "\n" + Render(GetLines(u));
        if u != [] {
          assert t[|t| - 1] == u[|u| - 1];
        }
      }
    }
  }

  /**
   * Merging an empty batch into a log this function wrote leaves its lines
   * unchanged. A non-empty batch merged twice is kept twice, since the merge
   * is a multiset union.
   */
  lemma MergeNothingIsIdentity(lines: seq<string>)
    requires Sorted(lines)
    requires forall l :: l in lines ==> '\n' !in l
    ensures MergedLines([], Some(Render(lines))) == lines
  {
    GetLinesRender(lines);
    assert Sorted([]);
    NewlineFilterIsVacuous(Some(Render(lines)));
    MergedIsUnique([], Some(Render(lines)), lines);
  }
}

/**
 * The text record the context-menu command logs for each file: the file's
 * name (the part of its full path after the last backslash), the value read
 * as its size, its creation date and time, and its per-byte sum.
 */
module Records {
  import opened Wrappers
  import opened Decimal
  import Checksum

  const Separator: char := '\\'

  type U16 = x: int | 0 <= x < 0x1_0000

  /** The fields of a SYSTEMTIME the record uses (all WORDs). */
  datatype SystemTime = SystemTime(year: U16, month: U16, day: U16, hour: U16, minute: U16, second: U16)

  /**
   * What the command takes from BY_HANDLE_FILE_INFORMATION after converting
   * the creation FILETIME: `nFileIndexLow` (a DWORD, printed as the "size")
   * and the creation time.
   */
  datatype FileInfo = FileInfo(fileIndexLow: Checksum.U32, creation: SystemTime)

  /** The values a log record prints, in their printed form (unbounded naturals). */
  datatype LogRecord = LogRecord(
    name: string, size: nat,
    day: nat, month: nat, year: nat,
    hour: nat, minute: nat, second: nat,
    sum: nat)

  /** The part of `path` after its last backslash (all of it when there is none). */
  function FileNamePart(path: string): string
  {
    if path == [] || path[|path| - 1] == Separator then []
    else FileNamePart(path[..|path| - 1]) + [path[|path| - 1]]
  }

  lemma {:induction false} FileNamePartOf(dir: string, name: string)
    requires Separator !in name
    ensures FileNamePart(dir + [Separator] + name) == name
  {
    if name != [] {
      var init := name[..|name| - 1];
      assert (dir + [Separator] + name)[..|dir + [Separator] + name| - 1] == dir + [Separator] + init;
      FileNamePartOf(dir, init);
      assert init + [name[|name| - 1]] == name;
    }
  }

  /** The name part is a backslash-free suffix of the path. */
  lemma {:induction false} FileNamePartIsSuffix(path: string)
    ensures |FileNamePart(path)| <= |path|
    ensures FileNamePart(path) == path[|path| - |FileNamePart(path)|..]
    ensures Separator !in FileNamePart(path)
  {
    if path != [] && path[|path| - 1] != Separator {
      var init, last := path[..|path| - 1], path[|path| - 1];
      FileNamePartIsSuffix(init);
      var n0 := FileNamePart(init);
      assert FileNamePart(path) == n0 + [last];
      assert path[|path| - |n0| - 1..] == init[|init| - |n0|..] + [last] by {
        assert path == init + [last];
      }
    }
  }

  /** When the path has a backslash, the name part is the text right after the last one. */
  lemma {:induction false} FileNamePartAfterSeparator(path: string)
    requires Separator in path
    ensures |FileNamePart(path)| < |path|
    ensures path[|path| - |FileNamePart(path)| - 1] == Separator
  {
    if path[|path| - 1] != Separator {
      var init, last := path[..|path| - 1], path[|path| - 1];
      assert Separator in init by {
        var k :| 0 <= k < |path| && path[k] == Separator;
        assert init[k] == Separator;
      }
      FileNamePartAfterSeparator(init);
      assert FileNamePart(path) == FileNamePart(init) + [last];
    }
  }

  /**
   * The backward scan from the last character that stops at the first
   * backslash it meets, followed by taking the substring after it.
   * A path without a backslash makes the scan read before the start of the
   * string, so the caller must supply one.
   */
  method FileName(path: string) returns (name: string)
    requires Separator in path
    ensures name == FileNamePart(path)
    ensures Separator !in name
  {
    var size := |path| - 1;
    var i := 0;
    while path[size - i] != Separator
      invariant 0 <= i <= size
      invariant Separator !in path[size - i + 1..]
      invariant Separator in path[..size - i + 1]
      decreases size - i
    {
      assert path[..size - i + 1] == path[..size - i] + [path[size - i]];
      assert path[size - i..] == [path[size - i]] + path[size - i + 1..];
      i := i + 1;
    }
    name := path[size - i + 1..];
    assert path == path[..size - i] + [Separator] + name;
    FileNamePartOf(path[..size - i], name);
  }

  /**
   * The labels of the record expression, in order; each is followed by the
   * decimal text of one value (`std::to_wstring`). The separate literals
   * `L" Bytes"` and `L"; Date: "` of the expression are joined into one label.
   */
  const Labels: seq<string> := ["; Size: ", " Bytes; Date: ", "/", "/", "; Time: ", ":", ":", " Per-Byte sum: "]

  /** The values printed after the labels, in the same order. */
  function Values(r: LogRecord): (vs: seq<nat>)
    ensures |vs| == |Labels|
  {
    [r.size, r.day, r.month, r.year, r.hour, r.minute, r.second, r.sum]
  }

  /** Each label followed by its value's decimal text. */
  function Emit(labels: seq<string>, values: seq<nat>): string
    requires |labels| == |values|
  {
    if labels == [] then [] else labels[0] + ToDecimal(values[0]) + Emit(labels[1..], values[1..])
  }

  /** The record text: the file name, then every label with its value. */
  function Format(r: LogRecord): string
  {
    r.name + Emit(Labels, Values(r))
  }

  /** The record of a file with full path `path`, metadata `info` and byte-sum `sum`. */
  function RecordOf(path: string, info: FileInfo, sum: Checksum.U32): LogRecord
  {
    var t := info.creation;
    LogRecord(FileNamePart(path), info.fileIndexLow, t.day, t.month, t.year, t.hour, t.minute, t.second, sum)
  }

  /** Index of the first ';' in `s`, or |s|. */
  function NameEnd(s: string): (k: nat)
    ensures k <= |s|
    ensures ';' !in s[..k]
    ensures k < |s| ==> s[k] == ';'
  {
    if s == [] || s[0] == ';' then 0
    else
      var k := 1 + NameEnd(s[1..]);
      assert s[..k] == [s[0]] + s[1..][..k - 1];
      k
  }

  /** `Some(rest)` when `s` starts with `lit`. */
  function Expect(lit: string, s: string): Option<string>
  {
    if lit <= s then Some(s[|lit|..]) else None
  }

  /** Reads, for each label in turn, the label and then a number; nothing may follow the last. */
  function ReadFields(labels: seq<string>, s: string): (r: Option<seq<nat>>)
    ensures r.Some? ==> |r.value| == |labels|
  {
    if labels == [] then (if s == [] then Some([]) else None)
    else
      var s1 :- Expect(labels[0], s);
      var (n, s2) :- ReadNat(s1);
      var ns :- ReadFields(labels[1..], s2);
      Some([n] + ns)
  }

  /** Reads a record back from its text; the inverse of `Format` on names without ';'. */
  function Parse(s: string): Option<LogRecord>
  {
    var k := NameEnd(s);
    var vs :- ReadFields(Labels, s[k..]);
    Some(LogRecord(s[..k], vs[0], vs[1], vs[2], vs[3], vs[4], vs[5], vs[6], vs[7]))
  }

  lemma ExpectPrefix(lit: string, rest: string)
    ensures Expect(lit, lit + rest) == Some(rest)
  {
    assert (lit + rest)[|lit|..] == rest;
  }

  lemma {:induction false} NameEndOf(name: string, rest: string)
    requires ';' !in name
    requires rest != [] && rest[0] == ';'
    ensures NameEnd(name + rest) == |name|
  {
    if name != [] {
      assert (name + rest)[1..] == name[1..] + rest;
      NameEndOf(name[1..], rest);
    } else {
      assert name + rest == rest;
    }
  }

  /** Labels that are non-empty and do not start with a digit can be read back after emitting. */
  lemma {:induction false} ReadFieldsEmit(labels: seq<string>, values: seq<nat>)
    requires |labels| == |values|
    requires forall i :: 0 <= i < |labels| ==> labels[i] != [] && !IsDigit(labels[i][0])
    ensures ReadFields(labels, Emit(labels, values)) == Some(values)
  {
    if labels != [] {
      var tail := Emit(labels[1..], values[1..]);
      var rest := ToDecimal(values[0]) + tail;
      assert Emit(labels, values) == labels[0] + rest;
      ExpectPrefix(labels[0], rest);
      EmitStart(labels[1..], values[1..]);
      ReadNatToDecimal(values[0], tail);
      ReadFieldsEmit(labels[1..], values[1..]);
      assert [values[0]] + values[1..] == values;
    }
  }

  lemma EmitStart(labels: seq<string>, values: seq<nat>)
    requires |labels| == |values|
    requires forall i :: 0 <= i < |labels| ==> labels[i] != [] && !IsDigit(labels[i][0])
    ensures var e := Emit(labels, values); e == [] || !IsDigit(e[0])
  {
    if labels != [] {
      assert Emit(labels, values)[0] == labels[0][0];
    }
  }

  /** Every record of a name without ';' reads back as itself. */
  lemma ParseFormat(r: LogRecord)
    requires ';' !in r.name
    ensures Parse(Format(r)) == Some(r)
  {
    var tail := Emit(Labels, Values(r));
    assert tail[0] == ';';
    NameEndOf(r.name, tail);
    assert Format(r)[..|r.name|] == r.name;
    assert Format(r)[|r.name|..] == tail;
    ReadFieldsEmit(Labels, Values(r));
  }

  /** Two records of names without ';' have equal text only when all their fields are equal. */
  lemma FormatInjective(a: LogRecord, b: LogRecord)
    requires ';' !in a.name && ';' !in b.name
    requires Format(a) == Format(b)
    ensures a == b
  {
    ParseFormat(a);
    ParseFormat(b);
  }

  lemma {:induction false} EmitShape(labels: seq<string>, values: seq<nat>)
    requires |labels| == |values|
    requires forall i :: 0 <= i < |labels| ==> '\n' !in labels[i]
    ensures '\n' !in Emit(labels, values)
    ensures values != [] ==>
      var d := ToDecimal(values[|values| - 1]);
      var e := Emit(labels, values);
      |d| <= |e| && e[|e| - |d|..] == d
  {
    if labels != [] {
      EmitShape(labels[1..], values[1..]);
      var d0 := ToDecimal(values[0]);
      var tail := Emit(labels[1..], values[1..]);
      var e := Emit(labels, values);
      assert e == labels[0] + d0 + tail;
      if |values| == 1 {
        assert tail == [];
        assert e == (labels[0]) + d0;
      } else {
        var d := ToDecimal(values[|values| - 1]);
        assert values[1..][|values[1..]| - 1] == values[|values| - 1];
        assert e[|e| - |d|..] == tail[|tail| - |d|..];
      }
    }
  }

  /** A record starts with the file name, ends with the decimal byte-sum, and has no line break of its own. */
  lemma FormatShape(r: LogRecord)
    requires '\n' !in r.name
    ensures r.name <= Format(r)
    ensures var d := ToDecimal(r.sum); |d| <= |Format(r)| && Format(r)[|Format(r)| - |d|..] == d
    ensures '\n' !in Format(r)
  {
    var tail := Emit(Labels, Values(r));
    EmitShape(Labels, Values(r));
    var d := ToDecimal(r.sum);
    var s := Format(r);
    assert s[|s| - |d|..] == tail[|tail| - |d|..];
  }
}

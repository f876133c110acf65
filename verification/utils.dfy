/**
 The file helpers of `src/utils.py` over an abstract file system (a map from
 directory and file name to text content, with a missing file read as empty):
 - `write_files`, `write_file`, `write_json`, which open the target in append
   or overwrite mode and write one line per item, the content verbatim, or
   the dumped JSON object;
 - `load_sme_archives_urls_as_generator`, the `readline` loop that yields the
   lines of a text file with their terminators;
 - `to_flat_list`.
 Creating a missing directory has no counterpart here: a path's directory is
 part of its name.
 */
module Utils {
  import opened Python

  datatype Path = Path(dir: string, name: string)

  type FileSystem = map<Path, string>

  /** The `mode` argument of `open`: `'a'` or `'w'`. */
  datatype Mode = Append | Overwrite

  /** Content of a file; a missing file reads as empty. */
  function Content(fs: FileSystem, p: Path): string {
    if p in fs then fs[p] else ""
  }

  /** What a file holds right after `open(p, mode)`. */
  function Opened(fs: FileSystem, p: Path, mode: Mode): string {
    match mode
    case Append => Content(fs, p)
    case Overwrite => ""
  }

  /* ---------------------------------------------------------------------- */
  /* to_flat_list                                                            */
  /* ---------------------------------------------------------------------- */

  /** Total number of elements of the parts. */
  function TotalLength<T>(parts: seq<seq<T>>): nat {
    if |parts| == 0 then 0 else |parts[0]| + TotalLength(parts[1..])
  }

  /** `to_flat_list(array)`, that is `list(itertools.chain(*array))`. */
  function ToFlatList<T>(parts: seq<seq<T>>): (flat: seq<T>)
    ensures |flat| == TotalLength(parts)
  {
    if |parts| == 0 then [] else parts[0] + ToFlatList(parts[1..])
  }

  lemma {:induction false} ToFlatListAppend<T>(a: seq<seq<T>>, b: seq<seq<T>>)
    ensures ToFlatList(a + b) == ToFlatList(a) + ToFlatList(b)
    ensures TotalLength(a + b) == TotalLength(a) + TotalLength(b)
  {
    if |a| == 0 {
      assert a + b == b;
    } else {
      assert (a + b)[1..] == a[1..] + b;
      ToFlatListAppend(a[1..], b);
    }
  }

  /** Order preservation: element `j` of part `i` sits in the flat list right
      after all elements of the earlier parts. */
  lemma {:induction false} ToFlatListIndex<T>(parts: seq<seq<T>>, i: nat, j: nat)
    requires i < |parts| && j < |parts[i]|
    ensures TotalLength(parts[..i]) + j < |ToFlatList(parts)|
    ensures ToFlatList(parts)[TotalLength(parts[..i]) + j] == parts[i][j]
  {
    assert parts == parts[..i] + parts[i..];
    ToFlatListAppend(parts[..i], parts[i..]);
    assert ToFlatList(parts[i..]) == parts[i] + ToFlatList(parts[i + 1..]) by {
      assert parts[i..][1..] == parts[i + 1..];
    }
  }

  /** An element is in the flat list exactly when it is in one of the parts. */
  lemma {:induction false} ToFlatListMembership<T>(parts: seq<seq<T>>, x: T)
    ensures x in ToFlatList(parts) <==> exists i :: 0 <= i < |parts| && x in parts[i]
  {
    if |parts| > 0 {
      ToFlatListMembership(parts[1..], x);
      if x in ToFlatList(parts[1..]) {
        var i :| 0 <= i < |parts[1..]| && x in parts[1..][i];
        assert x in parts[i + 1];
      }
      if exists i :: 0 <= i < |parts| && x in parts[i] {
        var i :| 0 <= i < |parts| && x in parts[i];
        if i > 0 {
          assert x in parts[1..][i - 1];
        }
      }
    }
  }

  /* ---------------------------------------------------------------------- */
  /* Writing                                                                 */
  /* ---------------------------------------------------------------------- */

  /** Each item followed by a newline, as `write_files` writes it. */
  function Terminated(contents: seq<string>): (lines: seq<string>)
    ensures |lines| == |contents|
    ensures forall i :: 0 <= i < |contents| ==> lines[i] == contents[i] + "\n"
  {
    seq(|contents|, i requires 0 <= i < |contents| => contents[i] + "\n")
  }

  /** `write_files(contents, out_filename, path, mode)`. */
  function WriteFiles(fs: FileSystem, contents: seq<string>, p: Path, mode: Mode): (fs': FileSystem)
    ensures p in fs'
    ensures fs'[p] == Opened(fs, p, mode) + ToFlatList(Terminated(contents))
    ensures forall q :: q != p ==> Content(fs', q) == Content(fs, q)
  {
    fs[p := Opened(fs, p, mode) + ToFlatList(Terminated(contents))]
  }

  /** `write_file(content, out_filename, path, mode)`: no terminator added. */
  function WriteFile(fs: FileSystem, content: string, p: Path, mode: Mode): (fs': FileSystem)
    ensures p in fs'
    ensures mode == Append ==> fs'[p] == Content(fs, p) + content
    ensures mode == Overwrite ==> fs'[p] == content
    ensures forall q :: q != p ==> Content(fs', q) == Content(fs, q)
  {
    fs[p := Opened(fs, p, mode) + content]
  }

  /** `write_json(json_file, out_filename, path, mode)`; `dump` is the text
      `json.dump` produces for the object. */
  function WriteJson(fs: FileSystem, v: Value, p: Path, mode: Mode, dump: Value -> string): (fs': FileSystem)
    ensures p in fs'
    ensures mode == Overwrite ==> fs'[p] == dump(v)
    ensures mode == Append ==> fs'[p] == Content(fs, p) + dump(v)
    ensures forall q :: q != p ==> Content(fs', q) == Content(fs, q)
  {
    fs[p := Opened(fs, p, mode) + dump(v)]
  }

  /** `write_json` in its default mode `'w'`: the second of two writes to the
      same file is all that remains, whatever the first wrote. */
  lemma WriteJsonLastWins(fs: FileSystem, v1: Value, v2: Value, p: Path, dump: Value -> string)
    ensures WriteJson(WriteJson(fs, v1, p, Overwrite, dump), v2, p, Overwrite, dump)
         == WriteJson(fs, v2, p, Overwrite, dump)
  {
  }

  /* ---------------------------------------------------------------------- */
  /* Reading lines                                                           */
  /* ---------------------------------------------------------------------- */

  /** The text `open(p, 'r')` reads from the stored content `raw`: text
      mode uses universal newlines, so `"\r\n"` and a lone `'\r'` are both
      read as `'\n'`. Writing in text mode stores `'\n'` unchanged on POSIX
      systems; Windows stores `"\r\n"`, which reads back as `'\n'` all the
      same. */
  function Universal(raw: string): (text: string)
    ensures '\r' !in text
    ensures |text| <= |raw|
    ensures |raw| > 0 ==> |text| > 0
    decreases |raw|
  {
    if |raw| == 0 then ""
    else if raw[0] == '\r' then "\n" + Universal(if |raw| > 1 && raw[1] == '\n' then raw[2..] else raw[1..])
    else [raw[0]] + Universal(raw[1..])
  }

  /** Text without `'\r'` is read as stored. */
  lemma {:induction false} UniversalKeepsPlainText(s: string)
    requires '\r' !in s
    ensures Universal(s) == s
    decreases |s|
  {
    if |s| > 0 {
      assert s[1..] == s[1..];
      assert forall k :: 0 <= k < |s| - 1 ==> s[1..][k] == s[k + 1];
      UniversalKeepsPlainText(s[1..]);
      assert s == [s[0]] + s[1..];
    }
  }

  /** Translation works piece by piece, as long as the first piece does not
      end in a `'\r'` the second piece's `'\n'` could complete. */
  lemma {:induction false} UniversalAppend(x: string, y: string)
    requires |x| == 0 || x[|x| - 1] != '\r'
    ensures Universal(x + y) == Universal(x) + Universal(y)
    decreases |x|
  {
    if |x| == 0 {
      assert x + y == y;
    } else if x[0] == '\r' {
      assert |x| > 1;
      assert (x + y)[1] == x[1];
      if x[1] == '\n' {
        assert (x + y)[2..] == x[2..] + y;
        UniversalAppend(x[2..], y);
      } else {
        assert (x + y)[1..] == x[1..] + y;
        UniversalAppend(x[1..], y);
      }
    } else {
      assert (x + y)[1..] == x[1..] + y;
      UniversalAppend(x[1..], y);
    }
  }

  /** Text that ends a line is read as text that ends a line. */
  lemma {:induction false} UniversalEndsLine(x: string)
    requires EndsLine(x)
    ensures EndsLine(Universal(x))
    decreases |x|
  {
    if |x| > 1 {
      var tail := if x[0] == '\r' && x[1] == '\n' then x[2..] else x[1..];
      assert EndsLine(tail);
      UniversalEndsLine(tail);
    }
  }

  /** `"a\rb\r\nc"` is read as the lines `"a\n"`, `"b\n"` and `"c"`. */
  lemma UniversalExample()
    ensures FileLines("a\rb\r\nc") == ["a\n", "b\n", "c"]
  {
    var raw := "a\rb\r\nc";
    assert Universal(raw[3..]) == "\nc" by {
      assert raw[3..] == "\r\nc";
      assert raw[3..][2..] == "c";
    }
    assert Universal(raw) == "a\nb\nc" by {
      assert raw[1..] == "\rb\r\nc";
      assert raw[1..][1..] == "b\r\nc";
      assert raw[1..][1..][1..] == raw[3..];
    }
    ReadSmallLines("a\nb\nc");
  }

  lemma ReadSmallLines(text: string)
    requires text == "a\nb\nc"
    ensures ReadLines(text) == ["a\n", "b\n", "c"]
  {
    ReadOneLine("a\n");
    ReadOneLine("b\n");
    assert text == "a\n" + ("b\n" + "c");
    ReadLinesAppend("a\n", "b\n" + "c");
    ReadLinesAppend("b\n", "c");
    LineEndAt("c", 1);
    assert ReadLines("c") == ["c"] by {
      assert "c"[..1] == "c" && "c"[1..] == [];
    }
  }

  /** What the line generator yields for a file with stored content `raw`. */
  function FileLines(raw: string): seq<string> {
    ReadLines(Universal(raw))
  }

  /** Length of the first line of `s`, its terminator included. */
  function LineEnd(s: string): (e: nat)
    requires |s| > 0
    ensures 1 <= e <= |s|
  {
    if s[0] == '\n' || |s| == 1 then 1 else 1 + LineEnd(s[1..])
  }

  /** The first line holds no newline but its last character, which is a
      newline unless the line runs to the end of the text. */
  lemma {:induction false} LineEndSpec(s: string)
    requires |s| > 0
    ensures forall k :: 0 <= k < LineEnd(s) - 1 ==> s[k] != '\n'
    ensures LineEnd(s) < |s| ==> s[LineEnd(s) - 1] == '\n'
    decreases |s|
  {
    if !(s[0] == '\n' || |s| == 1) {
      LineEndSpec(s[1..]);
      forall k | 1 <= k < LineEnd(s) - 1
        ensures s[k] != '\n'
      {
        assert s[k] == s[1..][k - 1];
      }
    }
  }

  /** `f.readline()` at offset `pos` of the text read: the next line with
      its terminator, or `""` at the end of the file. */
  function ReadLine(s: string, pos: nat): (line: string)
    requires pos <= |s|
    ensures pos + |line| <= |s|
    ensures line == "" <==> pos == |s|
  {
    if pos == |s| then "" else s[pos..pos + LineEnd(s[pos..])]
  }

  /** The lines the generator yields for a file whose content is `s`. */
  function ReadLines(s: string): seq<string>
    decreases |s|
  {
    if |s| == 0 then [] else [s[..LineEnd(s)]] + ReadLines(s[LineEnd(s)..])
  }

  /** The lines glue back to the text, none is empty, a newline occurs in a
      line only as its last character, and every line but the last has one. */
  ghost predicate LinesOf(lines: seq<string>, s: string) {
    && ToFlatList(lines) == s
    && (forall i :: 0 <= i < |lines| ==> |lines[i]| > 0)
    && (forall i, k :: 0 <= i < |lines| && 0 <= k < |lines[i]| - 1 ==> lines[i][k] != '\n')
    && (forall i :: 0 <= i < |lines| - 1 ==> lines[i][|lines[i]| - 1] == '\n')
  }

  /** A line put in front of well-cut text gives well-cut text. */
  lemma LinesOfCons(first: string, rest: seq<string>, t: string)
    requires LinesOf(rest, t)
    requires |first| > 0
    requires forall k :: 0 <= k < |first| - 1 ==> first[k] != '\n'
    requires |rest| > 0 ==> first[|first| - 1] == '\n'
    ensures LinesOf([first] + rest, first + t)
  {
    var lines := [first] + rest;
    assert lines[1..] == rest;
    forall i | 0 <= i < |lines| - 1
      ensures lines[i][|lines[i]| - 1] == '\n'
    {
      if i > 0 {
        assert lines[i] == rest[i - 1];
      }
    }
    forall i, k | 0 <= i < |lines| && 0 <= k < |lines[i]| - 1
      ensures lines[i][k] != '\n'
    {
      if i > 0 {
        assert lines[i] == rest[i - 1];
      }
    }
  }

  lemma {:induction false} ReadLinesAreLines(s: string)
    ensures LinesOf(ReadLines(s), s)
    decreases |s|
  {
    if |s| > 0 {
      var e := LineEnd(s);
      ReadLinesAreLines(s[e..]);
      LineEndSpec(s);
      assert s == s[..e] + s[e..];
      LinesOfCons(s[..e], ReadLines(s[e..]), s[e..]);
    }
  }

  /** The generator's lines are the only way to cut `s` into lines. */
  lemma {:induction false} LinesOfUnique(lines: seq<string>, s: string)
    requires LinesOf(lines, s)
    ensures lines == ReadLines(s)
    decreases |s|
  {
    if |lines| > 0 {
      var e := |lines[0]|;
      FirstOfLines(lines, s);
      LinesOfTail(lines, s);
      LinesOfUnique(lines[1..], s[e..]);
      assert lines == [lines[0]] + lines[1..];
    }
  }

  /** The first of well-cut lines is the generator's first line. */
  lemma FirstOfLines(lines: seq<string>, s: string)
    requires LinesOf(lines, s) && |lines| > 0
    ensures |s| > 0 && LineEnd(s) == |lines[0]| && s[..|lines[0]|] == lines[0]
    ensures |lines[0]| <= |s| && s[|lines[0]|..] == ToFlatList(lines[1..])
  {
    var first := lines[0];
    assert s == first + ToFlatList(lines[1..]);
    forall k | 0 <= k < |first|
      ensures s[k] == first[k]
    {
    }
    if first[|first| - 1] != '\n' {
      assert |lines| == 1 && s == first;
    }
    LineEndAt(s, |first|);
  }

  /** The lines after the first cut the rest of the text well. */
  lemma LinesOfTail(lines: seq<string>, s: string)
    requires LinesOf(lines, s) && |lines| > 0
    ensures |lines[0]| <= |s| && LinesOf(lines[1..], s[|lines[0]|..])
  {
    assert s == lines[0] + ToFlatList(lines[1..]);
    assert s[|lines[0]|..] == ToFlatList(lines[1..]);
    forall i | 0 <= i < |lines[1..]| - 1
      ensures lines[1..][i][|lines[1..][i]| - 1] == '\n'
    {
      assert lines[1..][i] == lines[i + 1];
    }
    forall i, k | 0 <= i < |lines[1..]| && 0 <= k < |lines[1..][i]| - 1
      ensures lines[1..][i][k] != '\n'
    {
      assert lines[1..][i] == lines[i + 1];
    }
  }

  /** One `readline` call takes the first of the remaining lines. */
  lemma ReadLineStep(content: string, pos: nat)
    requires pos < |content|
    ensures pos + |ReadLine(content, pos)| <= |content|
    ensures ReadLines(content[pos..]) == [ReadLine(content, pos)] + ReadLines(content[pos + |ReadLine(content, pos)|..])
  {
    var t := content[pos..];
    var e := LineEnd(t);
    assert ReadLine(content, pos) == t[..e];
    assert t[e..] == content[pos + e..];
  }

  /** The loop's invariant survives taking one more line. */
  lemma TakeLine(content: string, pos: nat, lines: seq<string>, line: string)
    requires pos < |content| && Loaded(content, pos, lines) && line == ReadLine(content, pos)
    ensures pos + |line| <= |content| && Loaded(content, pos + |line|, lines + [line])
  {
    var rest := ReadLines(content[pos + |line|..]);
    ReadLineStep(content, pos);
    assert (lines + [line]) + rest == lines + ([line] + rest);
  }

  /** `load_sme_archives_urls_as_generator` as the loop it is: `readline`
      until it returns the empty string, over the text read from the stored
      content `raw`. */
  method LoadLines(raw: string) returns (lines: seq<string>)
    ensures LinesOf(lines, Universal(raw))
    ensures lines == FileLines(raw)
  {
    var content := Universal(raw);
    lines := [];
    var pos := 0;
    var line := ReadLine(content, pos);
    while line != ""
      invariant pos <= |content|
      invariant line == ReadLine(content, pos)
      invariant Loaded(content, pos, lines)
      decreases |content| - pos
    {
      TakeLine(content, pos, lines, line);
      lines, pos := lines + [line], pos + |line|;
      line := ReadLine(content, pos);
    }
    LoadedAll(content, pos, lines);
  }

  /** At the end of the file the lines read are all the lines. */
  lemma LoadedAll(content: string, pos: nat, lines: seq<string>)
    requires pos == |content| && Loaded(content, pos, lines)
    ensures lines == ReadLines(content) && LinesOf(lines, content)
  {
    assert content[pos..] == [];
    assert lines == lines + [];
    ReadLinesAreLines(content);
  }

  /** The lines read before offset `pos`, followed by those after it, are
      all the lines. */
  predicate Loaded(content: string, pos: nat, lines: seq<string>)
    requires pos <= |content|
  {
    lines + ReadLines(content[pos..]) == ReadLines(content)
  }

  /** Text that is empty or ends a line. */
  predicate EndsLine(s: string) {
    |s| == 0 || s[|s| - 1] == '\n'
  }

  /** The first line ends at the first newline, or at the end of the
      text when there is none: the length `LineEnd` promises is the only one
      that fits. */
  lemma {:induction false} LineEndAt(s: string, e: nat)
    requires 1 <= e <= |s|
    requires forall k :: 0 <= k < e - 1 ==> s[k] != '\n'
    requires e < |s| ==> s[e - 1] == '\n'
    ensures LineEnd(s) == e
    decreases e
  {
    if e > 1 {
      assert s[0] != '\n';
      LineEndAt(s[1..], e - 1);
    }
  }

  lemma {:induction false} ReadLinesAppend(x: string, y: string)
    requires EndsLine(x)
    ensures ReadLines(x + y) == ReadLines(x) + ReadLines(y)
    decreases |x|
  {
    if |x| == 0 {
      assert x + y == y;
    } else {
      FirstLineOfAppend(x, y);
      ReadLinesAppend(x[LineEnd(x)..], y);
      AppendAfterFirstLine(x, y);
    }
  }

  /** The inductive step: the first line, then the rest appended. */
  lemma AppendAfterFirstLine(x: string, y: string)
    requires |x| > 0
    requires ReadLines(x + y) == [x[..LineEnd(x)]] + ReadLines(x[LineEnd(x)..] + y)
    requires ReadLines(x[LineEnd(x)..] + y) == ReadLines(x[LineEnd(x)..]) + ReadLines(y)
    ensures ReadLines(x + y) == ReadLines(x) + ReadLines(y)
  {
    var first, more := x[..LineEnd(x)], ReadLines(x[LineEnd(x)..]);
    assert ReadLines(x) == [first] + more;
    assert [first] + (more + ReadLines(y)) == ([first] + more) + ReadLines(y);
  }

  /** Text that ends a line keeps its first line when more text follows. */
  lemma FirstLineOfAppend(x: string, y: string)
    requires |x| > 0 && EndsLine(x)
    ensures EndsLine(x[LineEnd(x)..])
    ensures ReadLines(x + y) == [x[..LineEnd(x)]] + ReadLines(x[LineEnd(x)..] + y)
  {
    var e := LineEnd(x);
    LineEndSpec(x);
    assert LineEnd(x + y) == e by {
      forall k | 0 <= k < e
        ensures (x + y)[k] == x[k]
      {
      }
      LineEndAt(x + y, e);
    }
    assert (x + y)[..e] == x[..e];
    assert (x + y)[e..] == x[e..] + y;
  }

  /** A single terminated line reads back as itself. */
  lemma ReadOneLine(line: string)
    requires |line| > 0 && line[|line| - 1] == '\n'
    requires forall k :: 0 <= k < |line| - 1 ==> line[k] != '\n'
    ensures ReadLines(line) == [line]
  {
    LineEndAt(line, |line|);
    assert line[..|line|] == line;
    assert line[|line|..] == [];
  }

  lemma {:induction false} ReadTerminated(items: seq<string>)
    requires forall i :: 0 <= i < |items| ==> '\n' !in items[i]
    ensures ReadLines(ToFlatList(Terminated(items))) == Terminated(items)
  {
    if |items| > 0 {
      var first := items[0] + "\n";
      var tail := Terminated(items[1..]);
      assert Terminated(items) == [first] + tail;
      var rest := ToFlatList(tail);
      assert ToFlatList(Terminated(items)) == first + rest;
      ReadOneLine(first);
      ReadLinesAppend(first, rest);
      ReadTerminated(items[1..]);
    }
  }

  lemma {:induction false} TerminatedEndsLine(items: seq<string>)
    ensures EndsLine(ToFlatList(Terminated(items)))
  {
    if |items| > 0 {
      assert Terminated(items) == [items[0] + "\n"] + Terminated(items[1..]);
      TerminatedEndsLine(items[1..]);
    }
  }

  /** A sink written by `write_files` and read back by the line generator
      yields what was there before, then each item with its terminator, as
      long as the items are single lines without `'\r'` and the file ended
      a line. */
  lemma WriteFilesThenRead(fs: FileSystem, items: seq<string>, p: Path)
    requires EndsLine(Content(fs, p))
    requires forall i :: 0 <= i < |items| ==> '\n' !in items[i] && '\r' !in items[i]
    ensures FileLines(Content(WriteFiles(fs, items, p, Append), p))
         == FileLines(Content(fs, p)) + Terminated(items)
  {
    var t := ToFlatList(Terminated(items));
    AppendedLinesRead(fs, items, p);
    TerminatedHasNoCR(items);
    UniversalKeepsPlainText(t);
    ReadTerminated(items);
  }

  /** For any items, a sink that ended a line reads back as its old lines
      followed by the lines of what was appended, however that text is
      translated. */
  lemma AppendedLinesRead(fs: FileSystem, items: seq<string>, p: Path)
    requires EndsLine(Content(fs, p))
    ensures FileLines(Content(WriteFiles(fs, items, p, Append), p))
         == FileLines(Content(fs, p)) + FileLines(ToFlatList(Terminated(items)))
  {
    var c := Content(fs, p);
    var t := ToFlatList(Terminated(items));
    UniversalAppend(c, t);
    UniversalEndsLine(c);
    ReadLinesAppend(Universal(c), Universal(t));
  }

  /** Items without `'\r'` are written without `'\r'`. */
  lemma TerminatedHasNoCR(items: seq<string>)
    requires forall i :: 0 <= i < |items| ==> '\r' !in items[i]
    ensures '\r' !in ToFlatList(Terminated(items))
  {
    ToFlatListMembership(Terminated(items), '\r');
  }

  /** A sink read after two appends yields the old lines, then the lines
      of each append. */
  lemma ReadAfterTwoAppends(c: string, a: string, b: string)
    requires EndsLine(c) && EndsLine(a)
    ensures ReadLines(Universal(c + a + b)) == ReadLines(Universal(c)) + ReadLines(Universal(a)) + ReadLines(Universal(b))
  {
    UniversalAppend(c, a);
    assert EndsLine(c + a);
    UniversalAppend(c + a, b);
    UniversalEndsLine(c);
    UniversalEndsLine(a);
    ReadLinesOfThree(Universal(c), Universal(a), Universal(b));
  }

  /** Two appends to a sink in either order leave the same lines in it, up to
      order; this is why the order in which pool workers finish does not
      change which URLs a sink records. */
  lemma WriteFilesCommute(fs: FileSystem, xs: seq<string>, ys: seq<string>, p: Path)
    requires EndsLine(Content(fs, p))
    ensures multiset(FileLines(Content(WriteFiles(WriteFiles(fs, xs, p, Append), ys, p, Append), p)))
         == multiset(FileLines(Content(WriteFiles(WriteFiles(fs, ys, p, Append), xs, p, Append), p)))
  {
    var c := Content(fs, p);
    var a := ToFlatList(Terminated(xs));
    var b := ToFlatList(Terminated(ys));
    AppendTwice(fs, xs, ys, p);
    AppendTwice(fs, ys, xs, p);
    TerminatedEndsLine(xs);
    TerminatedEndsLine(ys);
    ReadAfterTwoAppends(c, a, b);
    ReadAfterTwoAppends(c, b, a);
  }

  lemma AppendTwice(fs: FileSystem, xs: seq<string>, ys: seq<string>, p: Path)
    ensures Content(WriteFiles(WriteFiles(fs, xs, p, Append), ys, p, Append), p)
         == Content(fs, p) + ToFlatList(Terminated(xs)) + ToFlatList(Terminated(ys))
  {
    var fsA := WriteFiles(fs, xs, p, Append);
    assert Content(fsA, p) == Content(fs, p) + ToFlatList(Terminated(xs));
  }

  lemma ReadLinesOfThree(c: string, a: string, b: string)
    requires EndsLine(c) && EndsLine(a)
    ensures ReadLines(c + a + b) == ReadLines(c) + ReadLines(a) + ReadLines(b)
  {
    ReadLinesAppend(c, a);
    assert EndsLine(c + a);
    ReadLinesAppend(c + a, b);
  }
}

/**
 The tail of a rotated log: the files are scanned newest first and their lines
 backwards, until enough rows are found. Lower-casing and the parser of a line
 are parameters; a file that cannot be read is `None`.
 */
module LogTail {
  import opened Seqs

  type File = Option<seq<string>>

  predicate Contains(text: string, needle: string) {
    exists i :: 0 <= i <= |text| - |needle| && needle <= text[i..]
  }

  /** How a line becomes a row: the search text, and the functions applied to a line. */
  datatype Reader<!Row> = Reader(needle: string, lower: string -> string, parse: string -> Option<Row>) {
    function Accept(line: string): Option<Row> {
      if needle != "" && !Contains(lower(line), needle) then None else parse(line)
    }
  }

  function AsSeq<T>(r: Option<T>): seq<T> {
    if r.Some? then [r.value] else []
  }

  function Lines(file: File): seq<string> {
    if file.Some? then file.value else []
  }

  // ---------------------------------------------------------------------------
  // What the tail is
  // ---------------------------------------------------------------------------

  /** All lines of the `n` newest files, oldest first. */
  function Text(files: seq<File>, n: nat): seq<string>
    requires n <= |files|
  {
    if n == 0 then [] else Lines(files[n - 1]) + Text(files, n - 1)
  }

  /** The rows of the lines from `j` on. */
  function Rows<Row>(reader: Reader<Row>, lines: seq<string>, j: nat): seq<Row>
    requires j <= |lines|
    decreases |lines| - j
  {
    if j == |lines| then [] else AsSeq(reader.Accept(lines[j])) + Rows(reader, lines, j + 1)
  }

  function Last<T>(s: seq<T>, n: nat): seq<T> {
    if |s| <= n then s else s[|s| - n..]
  }

  /** The lines of the newest file, from file `i` on, that can be read. */
  function Newest(files: seq<File>, i: nat): seq<string>
    requires i <= |files|
    decreases |files| - i
  {
    if i == |files| then [] else if files[i].Some? then files[i].value else Newest(files, i + 1)
  }

  /** A positive limit counts from the end of the whole log; any other stops at the newest file. */
  function Tail<Row>(reader: Reader<Row>, files: seq<File>, limit: int): seq<Row> {
    if limit >= 1 then Last(Rows(reader, Text(files, |files|), 0), limit)
    else Last(Rows(reader, Newest(files, 0), 0), 1)
  }

  // ---------------------------------------------------------------------------
  // The scan
  // ---------------------------------------------------------------------------

  /** The rows of the `n` newest files, file by file. */
  ghost function Gathered<Row>(reader: Reader<Row>, files: seq<File>, n: nat): seq<Row>
    requires n <= |files|
  {
    if n == 0 then [] else Rows(reader, Lines(files[n - 1]), 0) + Gathered(reader, files, n - 1)
  }

  ghost predicate EndsWith<T>(s: seq<T>, tail: seq<T>) {
    |tail| <= |s| && s[|s| - |tail|..] == tail
  }

  /** `rows` is `tail` backwards. */
  ghost predicate Mirrors<T>(rows: seq<T>, tail: seq<T>) {
    |rows| == |tail| && forall k :: 0 <= k < |tail| ==> tail[k] == rows[|rows| - 1 - k]
  }

  lemma ReverseMirrors<T>(rows: seq<T>, tail: seq<T>)
    requires Mirrors(rows, tail)
    ensures Reverse(rows) == tail
  {
    if rows != [] {
      ReverseAt(rows, 0);
    }
    forall k | 0 <= k < |tail|
      ensures Reverse(rows)[k] == tail[k]
    {
      ReverseAt(rows, |rows| - 1 - k);
    }
  }

  lemma OneMoreMirrored<T>(rows: seq<T>, tail: seq<T>, r: T)
    requires Mirrors(rows, tail)
    ensures Mirrors(rows + [r], [r] + tail)
  {
  }

  lemma EndsWithMore<T>(more: seq<T>, s: seq<T>, tail: seq<T>)
    requires EndsWith(s, tail)
    ensures EndsWith(more + s, tail)
  {
    assert (more + s)[|more + s| - |tail|..] == s[|s| - |tail|..];
  }

  lemma EndsWithBoth<T>(s: seq<T>, tail: seq<T>, rest: seq<T>)
    requires EndsWith(s, tail)
    ensures EndsWith(s + rest, tail + rest)
  {
    assert (s + rest)[|s| - |tail|..] == s[|s| - |tail|..] + rest;
  }

  lemma NoRows<Row>(reader: Reader<Row>)
    ensures Rows(reader, [], 0) == []
  {
  }

  lemma {:induction false} RowsShift<Row>(reader: Reader<Row>, a: seq<string>, b: seq<string>, j: nat)
    requires j <= |b|
    ensures Rows(reader, a + b, |a| + j) == Rows(reader, b, j)
    decreases |b| - j
  {
    if j < |b| {
      RowsShift(reader, a, b, j + 1);
    }
  }

  lemma {:induction false} RowsSplit<Row>(reader: Reader<Row>, a: seq<string>, b: seq<string>, j: nat)
    requires j <= |a|
    ensures Rows(reader, a + b, j) == Rows(reader, a, j) + Rows(reader, b, 0)
    decreases |a| - j
  {
    if j < |a| {
      RowsSplit(reader, a, b, j + 1);
    } else {
      RowsShift(reader, a, b, 0);
    }
  }

  /** Reading file by file gives the rows of the whole text. */
  lemma {:induction false} GatheredIsText<Row>(reader: Reader<Row>, files: seq<File>, n: nat)
    requires n <= |files|
    ensures Gathered(reader, files, n) == Rows(reader, Text(files, n), 0)
  {
    hide Rows, Lines;
    if n > 0 {
      var lines, older := Lines(files[n - 1]), Text(files, n - 1);
      assert Text(files, n) == lines + older;
      assert Gathered(reader, files, n) == Rows(reader, lines, 0) + Gathered(reader, files, n - 1);
      hide Text, Gathered;
      GatheredIsText(reader, files, n - 1);
      RowsSplit(reader, lines, older, 0);
    } else {
      assert Text(files, 0) == [];
      NoRows(reader);
    }
  }

  lemma {:induction false} RowsEnd<Row>(reader: Reader<Row>, lines: seq<string>, i: nat, j: nat)
    requires i <= j <= |lines|
    ensures EndsWith(Rows(reader, lines, i), Rows(reader, lines, j))
    decreases j - i
  {
    if i < j {
      RowsEnd(reader, lines, i + 1, j);
      EndsWithMore(AsSeq(reader.Accept(lines[i])), Rows(reader, lines, i + 1), Rows(reader, lines, j));
    }
  }

  lemma {:induction false} GatheredEnd<Row>(reader: Reader<Row>, files: seq<File>, n: nat, tail: seq<Row>, m: nat)
    requires m <= n <= |files| && EndsWith(Gathered(reader, files, m), tail)
    ensures EndsWith(Gathered(reader, files, n), tail)
  {
    hide EndsWith, Rows, Lines;
    if m < n {
      GatheredEnd(reader, files, n - 1, tail, m);
      EndsWithMore(Rows(reader, Lines(files[n - 1]), 0), Gathered(reader, files, n - 1), tail);
    }
  }

  /** What has been gathered in the middle of a file is an end of the whole. */
  lemma MiddleEnd<Row>(reader: Reader<Row>, files: seq<File>, n: nat, j: nat)
    requires n < |files| && files[n].Some? && j <= |files[n].value|
    ensures EndsWith(Rows(reader, Text(files, |files|), 0),
                     Rows(reader, files[n].value, j) + Gathered(reader, files, n))
  {
    hide Rows, EndsWith, Text;
    var lines, rest := files[n].value, Gathered(reader, files, n);
    GatheredIsText(reader, files, |files|);
    RowsEnd(reader, lines, 0, j);
    EndsWithBoth(Rows(reader, lines, 0), Rows(reader, lines, j), rest);
    GatheredEnd(reader, files, |files|, Rows(reader, lines, j) + rest, n + 1);
  }

  lemma LastIsEnd<T>(s: seq<T>, tail: seq<T>, n: nat)
    requires EndsWith(s, tail) && (|tail| == n || (tail == s && |tail| <= n))
    ensures Last(s, n) == tail
  {
  }

  /** The rows gathered before file `i`: a scan without a positive limit has none. */
  ghost function Before<Row>(reader: Reader<Row>, files: seq<File>, limit: int, i: nat): seq<Row>
    requires i <= |files|
  {
    if limit >= 1 then Gathered(reader, files, i) else []
  }

  lemma StoppedInFile<Row>(reader: Reader<Row>, files: seq<File>, limit: int, i: nat, j: nat)
    requires i < |files| && files[i].Some? && j <= |files[i].value|
    requires limit <= 0 ==> Newest(files, 0) == Newest(files, i)
    requires var tail := Rows(reader, files[i].value, j) + Before(reader, files, limit, i);
             |tail| == Max(limit, 1) || (limit <= 0 && j == 0 && tail == [])
    ensures Tail(reader, files, limit) == Rows(reader, files[i].value, j) + Before(reader, files, limit, i)
  {
    hide Rows, Gathered, EndsWith;
    var lines := files[i].value;
    var tail := Rows(reader, lines, j) + Before(reader, files, limit, i);
    if limit >= 1 {
      MiddleEnd(reader, files, i, j);
      LastIsEnd(Rows(reader, Text(files, |files|), 0), tail, limit);
    } else {
      assert tail == Rows(reader, lines, j);
      RowsEnd(reader, lines, 0, j);
      LastIsEnd(Rows(reader, lines, 0), tail, 1);
    }
  }

  lemma RanOut<Row>(reader: Reader<Row>, files: seq<File>, limit: int)
    requires |Before(reader, files, limit, |files|)| < Max(limit, 1)
    requires limit <= 0 ==> Newest(files, 0) == []
    ensures Tail(reader, files, limit) == Before(reader, files, limit, |files|)
  {
    GatheredIsText(reader, files, |files|);
  }

  /** Adds the rows of one file, last line first, up to the limit; it stopped at line `j`. */
  method ScanLines<Row>(reader: Reader<Row>, lines: seq<string>, limit: int, before: seq<Row>, ghost older: seq<Row>)
    returns (rows: seq<Row>, j: nat)
    requires Mirrors(before, older) && |older| < Max(limit, 1)
    ensures j <= |lines| && Mirrors(rows, Rows(reader, lines, j) + older)
    ensures |rows| == Max(limit, 1) || (j == 0 && |rows| < Max(limit, 1))
  {
    hide Reader.Accept;
    rows, j := before, |lines|;
    while j > 0
      invariant 0 <= j <= |lines|
      invariant Mirrors(rows, Rows(reader, lines, j) + older) && |rows| < Max(limit, 1)
    {
      j := j - 1;
      var parsed := reader.Accept(lines[j]);
      if parsed == None {
        assert Rows(reader, lines, j) == Rows(reader, lines, j + 1);
        continue;
      }
      OneMoreMirrored(rows, Rows(reader, lines, j + 1) + older, parsed.value);
      assert Rows(reader, lines, j) + older == [parsed.value] + (Rows(reader, lines, j + 1) + older);
      rows := rows + [parsed.value];
      if |rows| >= limit {
        break;
      }
    }
  }

  /** Rows are gathered newest first and turned round at the end. */
  method ReadRows<Row>(reader: Reader<Row>, files: seq<File>, limit: int) returns (rows: seq<Row>)
    ensures rows == Tail(reader, files, limit)
  {
    hide Tail, Text, EndsWith, Rows;
    rows := [];
    var i := 0;
    while i < |files|
      invariant i <= |files|
      invariant Mirrors(rows, Before(reader, files, limit, i)) && |rows| < Max(limit, 1)
      invariant limit <= 0 ==> Newest(files, 0) == Newest(files, i)
    {
      if files[i].Some? {
        ghost var older := Before(reader, files, limit, i);
        var j;
        rows, j := ScanLines(reader, files[i].value, limit, rows, older);
        if |rows| >= limit {
          StoppedInFile(reader, files, limit, i, j);
          ReverseMirrors(rows, Tail(reader, files, limit));
          return Reverse(rows);
        }
      } else {
        NoRows(reader);
      }
      i := i + 1;
    }
    RanOut(reader, files, limit);
    ReverseMirrors(rows, Tail(reader, files, limit));
    rows := Reverse(rows);
  }

  /** The lower-cased line holds the search text somewhere. */
  ghost predicate Wanted<Row>(reader: Reader<Row>, line: string) {
    exists pre, post :: reader.lower(line) == pre + reader.needle + post
  }

  lemma ContainsMeans(text: string, needle: string)
    ensures Contains(text, needle) <==> exists pre, post :: text == pre + needle + post
  {
    if Contains(text, needle) {
      var i :| 0 <= i <= |text| - |needle| && needle <= text[i..];
      assert text == text[..i] + needle + text[i + |needle|..];
    }
    forall pre, post | text == pre + needle + post
      ensures Contains(text, needle)
    {
      HoldsBetween(text, pre, needle, post);
    }
  }

  lemma HoldsBetween(text: string, pre: string, needle: string, post: string)
    requires text == pre + needle + post
    ensures Contains(text, needle)
  {
    assert text[|pre|..] == needle + post;
    assert needle <= text[|pre|..];
  }

  lemma WantedIsContained<Row>(reader: Reader<Row>, line: string)
    ensures Wanted(reader, line) <==> reader.needle == "" || Contains(reader.lower(line), reader.needle)
  {
    hide Contains;
    var text := reader.lower(line);
    ContainsMeans(text, reader.needle);
    if reader.needle == "" {
      assert text == "" + "" + text;
    }
  }

  /** A line gives its parse if it is wanted and can be parsed, and nothing otherwise. */
  lemma RowOfLine<Row>(reader: Reader<Row>, line: string)
    ensures Rows(reader, [line], 0) ==
            if Wanted(reader, line) && reader.parse(line).Some? then [reader.parse(line).value] else []
  {
    hide Contains;
    WantedIsContained(reader, line);
    assert Rows(reader, [line], 1) == [];
  }

  /** So the rows are the parses of exactly the wanted lines that can be parsed. */
  lemma {:induction false} RowsAreOfWantedLines<Row(!new)>(reader: Reader<Row>, lines: seq<string>, j: nat, row: Row)
    requires j <= |lines|
    ensures row in Rows(reader, lines, j)
            <==> exists k :: j <= k < |lines| && Wanted(reader, lines[k]) && reader.parse(lines[k]) == Some(row)
    decreases |lines| - j
  {
    hide Contains, Wanted;
    if j < |lines| {
      RowsAreOfWantedLines(reader, lines, j + 1, row);
      WantedIsContained(reader, lines[j]);
    }
  }
}

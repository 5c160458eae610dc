/**
 * Volume browsing of handlers/volumes.go: the `docker run ... ls -la`
 * command line of the browse handler, and ParseLsOutput, which turns the
 * long listing into file records, one line at a time.
 *
 * The modification time is kept as the text of its three fields; its
 * conversion to a time stamp (which reads the clock) is not modelled.
 */
module Volumes {
  import opened Text
  import opened Handler

  /** types.VolumeFileInfo */
  datatype FileInfo = FileInfo(name: string, path: string, isDir: bool, size: Int64,
                               mode: string, modTime: string, permissions: string)

  const LineSeparator: char := '\n'
  const FieldSeparator: char := ' '
  const TotalMarker: string := "total"
  const VolumeMount: string := "/volume"
  const BrowseImage: string := "alpine:latest"
  const BrowseFailed: string := "Failed to browse volume: "

  /** The path of the entry `name` listed in the directory `dir`. */
  function ChildPath(dir: string, name: string): (p: string)
    ensures HasSuffix(p, "/" + name)
    ensures dir == "/" ==> p == "/" + name
    ensures dir != "/" ==> HasPrefix(p, dir + "/") && p == dir + "/" + name
  {
    if dir == "/" then "/" + name
    else
      assert (dir + "/" + name)[|dir + "/" + name| - |"/" + name|..] == "/" + name;
      dir + "/" + name
  }

  /** The properties every record has, whatever the line it comes from. */
  predicate WellFormed(f: FileInfo, dir: string) {
    && f.name != "" && f.name != "." && f.name != ".."
    && f.mode == f.permissions && f.mode != ""
    && (f.isDir <==> f.mode[0] == 'd')
    && f.path == ChildPath(dir, f.name)
  }

  /**
   * The record of the fields of a line: None with fewer than nine fields or
   * for the name "." or "..". The size is 0 when its field is not a 64-bit
   * decimal number.
   */
  function ParseFields(parts: seq<string>, dir: string): (r: Option<FileInfo>)
    requires forall i :: 0 <= i < |parts| ==> parts[i] != []
    ensures r.Some? ==> |parts| >= 9 && WellFormed(r.value, dir)
    ensures r.Some? ==>
              r.value.size as int == (if ParseInt64(parts[4]).Some? then ParseInt64(parts[4]).value else 0)
  {
    if |parts| < 9 then None
    else
      var name := JoinWith(parts[8..], FieldSeparator);
      if name == "." || name == ".." then None
      else
        JoinWithHead(parts[8..], FieldSeparator);
        var size: Int64 := match ParseInt64(parts[4]) case Some(v) => v as Int64 case None => 0;
        Some(FileInfo(name, ChildPath(dir, name), HasPrefix(parts[0], "d"), size,
                      parts[0], JoinWith(parts[5..8], FieldSeparator), parts[0]))
  }

  /**
   * A size field that is not a decimal number does not drop the line: the
   * record is kept with the size 0.
   */
  lemma UnparsableSizeIsZero(parts: seq<string>, dir: string, i: nat)
    requires forall k :: 0 <= k < |parts| ==> parts[k] != []
    requires |parts| >= 9
    requires JoinWith(parts[8..], FieldSeparator) != "." && JoinWith(parts[8..], FieldSeparator) != ".."
    requires i < |parts[4]| && !IsDigit(parts[4][i])
    requires i > 0 || (parts[4][0] != '+' && parts[4][0] != '-')
    ensures ParseFields(parts, dir).Some? && ParseFields(parts, dir).value.size == 0
  {
    ParseInt64RejectsNonDigit(parts[4], i);
  }

  /**
   * The record of one line of the listing, or None for a line that is
   * skipped: blank, containing "total" anywhere, or rejected by ParseFields.
   */
  function ParseLine(line: string, dir: string): (r: Option<FileInfo>)
    ensures r.Some? ==>
              var t := TrimSpace(line);
              t != "" && !Contains(t, TotalMarker) && |Fields(t)| >= 9
    ensures r.Some? ==> WellFormed(r.value, dir)
  {
    var t := TrimSpace(line);
    if t == "" || Contains(t, TotalMarker) then None else ParseFields(Fields(t), dir)
  }

  /** The records of `lines`, in order: at most one per line. */
  function ParseLines(lines: seq<string>, dir: string): (files: seq<FileInfo>)
    ensures |files| <= |lines|
    decreases |lines|
  {
    if lines == [] then []
    else
      ParseLines(lines[..|lines| - 1], dir) + AsSeq(ParseLine(lines[|lines| - 1], dir))
  }

  /** The record of a line as a sequence of zero or one records. */
  function AsSeq(r: Option<FileInfo>): (s: seq<FileInfo>)
    ensures |s| <= 1
    ensures r.Some? ==> s == [r.value]
  {
    match r
    case None => []
    case Some(f) => [f]
  }

  /** Reading one more line adds its record, if any, at the end. */
  lemma ParseLinesStep(lines: seq<string>, i: nat, dir: string)
    requires i < |lines|
    ensures ParseLines(lines[..i + 1], dir) == ParseLines(lines[..i], dir) + AsSeq(ParseLine(lines[i], dir))
  {
    assert lines[..i + 1][..i] == lines[..i];
  }

  /** ParseLsOutput, line by line. */
  method ParseLsOutput(output: string, currentPath: string) returns (files: seq<FileInfo>)
    ensures files == ParseLines(SplitOn(TrimSpace(output), LineSeparator), currentPath)
  {
    var lines := SplitOn(TrimSpace(output), LineSeparator);
    files := [];
    for i := 0 to |lines|
      invariant files == ParseLines(lines[..i], currentPath)
    {
      ParseLinesStep(lines, i, currentPath);
      var line := TrimSpace(lines[i]);
      if line == "" || Contains(line, TotalMarker) {
        assert ParseLine(lines[i], currentPath).None?;
        continue;
      }
      var parts := Fields(line);
      if |parts| < 9 {
        assert ParseLine(lines[i], currentPath).None?;
        continue;
      }
      var permissions := parts[0];
      var sizeStr := parts[4];
      var modTimeStr := JoinWith(parts[5..8], FieldSeparator);
      var name := JoinWith(parts[8..], FieldSeparator);
      if name == "." || name == ".." {
        assert ParseLine(lines[i], currentPath).None?;
        continue;
      }
      var size: Int64 := 0;
      var parsed := ParseInt64(sizeStr);
      if parsed.Some? {
        size := parsed.value as Int64;
      }
      var isDir := HasPrefix(permissions, "d");
      var filePath := currentPath;
      if filePath == "/" {
        filePath := "/" + name;
      } else {
        filePath := filePath + "/" + name;
      }
      var info := FileInfo(name, filePath, isDir, size, permissions, modTimeStr, permissions);
      assert ParseLine(lines[i], currentPath) == Some(info);
      files := files + [info];
    }
    assert lines[..|lines|] == lines;
  }

  /** Parsing keeps the order of the lines: the records of a concatenation are concatenated. */
  lemma {:induction false} ParseLinesAppend(a: seq<string>, b: seq<string>, dir: string)
    ensures ParseLines(a + b, dir) == ParseLines(a, dir) + ParseLines(b, dir)
    decreases |b|
  {
    if b == [] {
      assert a + b == a;
    } else {
      var init, last := b[..|b| - 1], b[|b| - 1];
      assert b == init + [last];
      assert a + b == (a + init) + [last];
      var x, y, z := ParseLines(a, dir), ParseLines(init, dir), AsSeq(ParseLine(last, dir));
      assert (x + y) + z == x + (y + z);
      ParseLinesAppend(a, init, dir);
      ParseLinesSnoc(a + init, last, dir);
      ParseLinesSnoc(init, last, dir);
    }
  }

  /** One more line at the end adds its record, if any, at the end. */
  lemma ParseLinesSnoc(lines: seq<string>, line: string, dir: string)
    ensures ParseLines(lines + [line], dir) == ParseLines(lines, dir) + AsSeq(ParseLine(line, dir))
  {
    assert (lines + [line])[..|lines|] == lines;
  }

  /** A single line gives its own record, if any. */
  lemma ParseOneLine(line: string, dir: string)
    ensures ParseLines([line], dir) == (if ParseLine(line, dir).Some? then [ParseLine(line, dir).value] else [])
  {
    assert [line][..0] == [];
  }

  /**
   * The inverse of ls's long format: a line made of eight fields (mode,
   * links, owner, group, size, and the three fields of the time) and the
   * words of a name, separated by single spaces, reads back as the record
   * with those parts.
   */
  lemma ParseListingLine(fields: seq<string>, nameWords: seq<string>, size: nat, dir: string)
    requires |fields| == 8 && |nameWords| >= 1
    requires forall i :: 0 <= i < |fields| ==> fields[i] != [] && NoSpace(fields[i])
    requires forall i :: 0 <= i < |nameWords| ==> nameWords[i] != [] && NoSpace(nameWords[i])
    requires size <= MaxInt64 && fields[4] == FormatNat(size)
    requires !Contains(JoinWith(fields + nameWords, FieldSeparator), TotalMarker)
    requires JoinWith(nameWords, FieldSeparator) != "." && JoinWith(nameWords, FieldSeparator) != ".."
    ensures var name := JoinWith(nameWords, FieldSeparator);
            ParseLine(JoinWith(fields + nameWords, FieldSeparator), dir) ==
              Some(FileInfo(name, ChildPath(dir, name), fields[0][0] == 'd', size as Int64,
                            fields[0], JoinWith(fields[5..8], FieldSeparator), fields[0]))
  {
    var words := fields + nameWords;
    var line := JoinWith(words, FieldSeparator);
    WordsOfLine(fields, nameWords);
    LineOfWords(words);
    ParseTrimmedLine(line, dir);
    assert words[8..] == nameWords && words[4] == fields[4] && words[0] == fields[0] && words[5..8] == fields[5..8];
    ParseFieldsOfListing(words, size, dir);
  }

  /** Words joined by single spaces form a trimmed, non-blank line whose fields are those words. */
  lemma LineOfWords(words: seq<string>)
    requires |words| >= 1
    requires forall i :: 0 <= i < |words| ==> words[i] != [] && NoSpace(words[i])
    ensures var line := JoinWith(words, FieldSeparator);
            line != "" && TrimSpace(line) == line && Fields(line) == words
  {
    JoinOfWordsTrimmed(words);
    JoinWithHead(words, FieldSeparator);
    TrimSpaceOfTrimmed(JoinWith(words, FieldSeparator));
    FieldsOfJoin(words);
  }

  /** A trimmed, non-blank line without "total" is read by its fields. */
  lemma ParseTrimmedLine(line: string, dir: string)
    requires TrimSpace(line) == line && line != "" && !Contains(line, TotalMarker)
    ensures ParseLine(line, dir) == ParseFields(Fields(line), dir)
  {
  }

  /** Nine or more fields with a decimal size and a proper name give the record of those fields. */
  lemma ParseFieldsOfListing(words: seq<string>, size: nat, dir: string)
    requires |words| >= 9
    requires forall i :: 0 <= i < |words| ==> words[i] != []
    requires size <= MaxInt64 && words[4] == FormatNat(size)
    requires JoinWith(words[8..], FieldSeparator) != "." && JoinWith(words[8..], FieldSeparator) != ".."
    ensures var name := JoinWith(words[8..], FieldSeparator);
            ParseFields(words, dir) ==
              Some(FileInfo(name, ChildPath(dir, name), words[0][0] == 'd', size as Int64,
                            words[0], JoinWith(words[5..8], FieldSeparator), words[0]))
  {
    ParseFormatRoundTrip(size);
  }

  /** The fields and name words of a listing line are its words. */
  lemma WordsOfLine(fields: seq<string>, nameWords: seq<string>)
    requires forall i :: 0 <= i < |fields| ==> fields[i] != [] && NoSpace(fields[i])
    requires forall i :: 0 <= i < |nameWords| ==> nameWords[i] != [] && NoSpace(nameWords[i])
    ensures var words := fields + nameWords;
            forall i :: 0 <= i < |words| ==> words[i] != [] && NoSpace(words[i])
  {
    var words := fields + nameWords;
    forall i | 0 <= i < |words| ensures words[i] != [] && NoSpace(words[i]) {
      if i < |fields| {
        assert words[i] == fields[i];
      } else {
        assert words[i] == nameWords[i - |fields|];
      }
    }
  }

  /**
   * A name containing "total" (say "totals.txt") is dropped with its line,
   * like the listing's "total" header.
   */
  lemma NameWithTotalDropped(fields: seq<string>, nameWords: seq<string>, dir: string)
    requires |fields| == 8 && |nameWords| >= 1
    requires forall i :: 0 <= i < |fields| ==> fields[i] != [] && NoSpace(fields[i])
    requires forall i :: 0 <= i < |nameWords| ==> nameWords[i] != [] && NoSpace(nameWords[i])
    requires Contains(JoinWith(nameWords, FieldSeparator), TotalMarker)
    ensures ParseLine(JoinWith(fields + nameWords, FieldSeparator), dir).None?
  {
    var words := fields + nameWords;
    var line := JoinWith(words, FieldSeparator);
    WordsOfLine(fields, nameWords);
    LineOfWords(words);
    assert Contains(line, TotalMarker) by {
      JoinWithConcat(fields, nameWords, FieldSeparator);
      var prefix := JoinWith(fields, FieldSeparator) + [FieldSeparator];
      assert line == prefix + JoinWith(nameWords, FieldSeparator) + [];
      ContainsExtend(prefix, JoinWith(nameWords, FieldSeparator), [], TotalMarker);
    }
  }

  /** A line with fewer than nine fields is skipped, not an error. */
  lemma ShortLineSkipped(words: seq<string>, dir: string)
    requires |words| < 9
    requires forall i :: 0 <= i < |words| ==> words[i] != [] && NoSpace(words[i])
    ensures ParseLine(JoinWith(words, FieldSeparator), dir).None?
  {
    var line := JoinWith(words, FieldSeparator);
    if words == [] {
      assert line == [];
      assert TrimSpace(line) == [];
    } else {
      LineOfWords(words);
      if !Contains(line, TotalMarker) {
        ParseTrimmedLine(line, dir);
        assert ParseFields(words, dir).None?;
      }
    }
  }

  // ---------------------------------------------------------------------
  // GET volumes/{name}/browse
  // ---------------------------------------------------------------------

  /** The reply of the browse handler: the listing, or the failure of the command (a 500). */
  datatype BrowseReply = Listing(path: string, files: seq<FileInfo>) | Failure(error: string)

  /** The browsed path: the query's path, or "/" when it is empty. */
  function BrowsePath(query: string): (p: string)
    ensures p != ""
    ensures query != "" ==> p == query
    ensures query == "" ==> p == "/"
  {
    if query == "" then "/" else query
  }

  /** The listing command: `docker run --rm -v vol:/volume alpine:latest ls -la /volume<path>`. */
  function BrowseArgv(volume: string, path: string): (argv: seq<string>)
    ensures |argv| == 8
    ensures argv[..3] == ["run", "--rm", "-v"]
    ensures argv[5..7] == ["ls", "-la"]
    ensures argv[3] == volume + ":" + VolumeMount
    ensures argv[4] == BrowseImage
    ensures argv[7] == VolumeMount + path
  {
    ["run", "--rm", "-v", volume + ":" + VolumeMount, BrowseImage, "ls", "-la", VolumeMount + path]
  }

  /**
   * The browse handler: run the listing in a throw-away container mounting
   * the volume, and parse what it prints; a failed command gives no records.
   */
  method BrowseVolume(volume: string, query: string, run: Command -> Outcome)
    returns (cmd: Command, reply: BrowseReply)
    ensures cmd == Command(Docker, BrowseArgv(volume, BrowsePath(query)), "", None)
    ensures run(cmd).failure.Some? ==> reply == Failure(BrowseFailed + run(cmd).failure.value)
    ensures run(cmd).failure.None? ==>
              reply == Listing(BrowsePath(query),
                               ParseLines(SplitOn(TrimSpace(run(cmd).output), LineSeparator), BrowsePath(query)))
  {
    var path := query;
    if path == "" {
      path := "/";
    }
    cmd := Command(Docker, ["run", "--rm", "-v", volume + ":" + VolumeMount, BrowseImage, "ls", "-la", VolumeMount + path], "", None);
    var outcome := run(cmd);
    if outcome.failure.Some? {
      reply := Failure(BrowseFailed + outcome.failure.value);
      return;
    }
    var files := ParseLsOutput(outcome.output, path);
    reply := Listing(path, files);
  }

  /** Every record of a listing is well formed. */
  lemma {:induction false} ParseLinesWellFormed(lines: seq<string>, dir: string)
    ensures forall i :: 0 <= i < |ParseLines(lines, dir)| ==> WellFormed(ParseLines(lines, dir)[i], dir)
    decreases |lines|
  {
    if lines != [] {
      var n := |lines| - 1;
      ParseLinesWellFormed(lines[..n], dir);
      ParseLinesStep(lines, n, dir);
      assert lines[..n + 1] == lines;
      var before := ParseLines(lines[..n], dir);
      var added := AsSeq(ParseLine(lines[n], dir));
      forall i | 0 <= i < |before + added| ensures WellFormed((before + added)[i], dir) {
        if i < |before| {
          assert (before + added)[i] == before[i];
        } else {
          assert (before + added)[i] == ParseLine(lines[n], dir).value;
        }
      }
    }
  }

  /** Browsing the root gives every record the path "/" + its name. */
  lemma RootRecords(lines: seq<string>)
    ensures forall i :: 0 <= i < |ParseLines(lines, "/")| ==>
              ParseLines(lines, "/")[i].path == "/" + ParseLines(lines, "/")[i].name
  {
    ParseLinesWellFormed(lines, "/");
  }
}

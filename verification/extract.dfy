/** `extract_files` (etl_script.py): every file of the download directory
    is routed to a reader by its suffix, and the records of all files are
    concatenated in iteration order. The readers themselves (pandas for
    CSV and JSON lines, `xml.etree` for parsing XML) are parameters. */
module Extract {
  import opened Fallible
  import opened Records
  import opened XmlFlatten
  import opened Errors

  /** The kinds of file the pipeline recognizes, and the rest. */
  datatype Format = Csv | JsonLines | Xml | Unrecognized

  /** Python's `s.endswith(suffix)`: case-sensitive. */
  predicate EndsWith(s: string, suffix: string) {
    |suffix| <= |s| && s[|s| - |suffix|..] == suffix
  }

  function FormatOf(path: string): Format {
    if EndsWith(path, ".csv") then Csv
    else if EndsWith(path, ".json") then JsonLines
    else if EndsWith(path, ".xml") then Xml
    else Unrecognized
  }

  lemma EndsWithLast(s: string, suffix: string)
    requires EndsWith(s, suffix) && suffix != []
    ensures s[|s| - 1] == suffix[|suffix| - 1]
  {
  }

  /** Each recognized suffix selects its own reader, whatever order the
      tests are made in: no path ends in two of them. */
  lemma FormatOfSuffix(path: string)
    ensures FormatOf(path) == Csv <==> EndsWith(path, ".csv")
    ensures FormatOf(path) == JsonLines <==> EndsWith(path, ".json")
    ensures FormatOf(path) == Xml <==> EndsWith(path, ".xml")
    ensures FormatOf(path) == Unrecognized <==>
              !EndsWith(path, ".csv") && !EndsWith(path, ".json") && !EndsWith(path, ".xml")
  {
    if EndsWith(path, ".csv") { EndsWithLast(path, ".csv"); }
    if EndsWith(path, ".json") { EndsWithLast(path, ".json"); }
    if EndsWith(path, ".xml") { EndsWithLast(path, ".xml"); }
  }

  /** A text file and an upper-case suffix are both unrecognized. */
  lemma UnrecognizedExamples()
    ensures FormatOf("data.txt") == Unrecognized
    ensures FormatOf("data.CSV") == Unrecognized
  {
  }

  /** The external readers. Each returns `None` where the library raises
      (a malformed file). */
  datatype Readers = Readers(
    readCsv: string -> Option<seq<Record>>,        // pd.read_csv(...).to_dict(orient='records')
    readJsonLines: string -> Option<seq<Record>>,  // pd.read_json(..., lines=True).to_dict(orient='records')
    parseXml: string -> Option<Element>)           // ET.parse(...).getroot()

  function OrReadFailed(o: Option<seq<Record>>, path: string): Result<seq<Record>, Error> {
    match o
    case Some(rs) => Success(rs)
    case None => Failure(ReadFailed(path))
  }

  /** The records one file contributes. */
  function ReadFile(rd: Readers, path: string): Result<seq<Record>, Error> {
    match FormatOf(path)
    case Csv => OrReadFailed(rd.readCsv(path), path)
    case JsonLines => OrReadFailed(rd.readJsonLines(path), path)
    case Xml =>
      (match rd.parseXml(path)
       case Some(root) => Success(ExtractXml(root))
       case None => Failure(ReadFailed(path)))
    case Unrecognized => Success([])
  }

  /** The records of all files, in iteration order; the first file whose
      reader raises ends the extraction. */
  function ExtractAll(rd: Readers, paths: seq<string>): Result<seq<Record>, Error> {
    if paths == [] then Success([])
    else
      var first :- ReadFile(rd, paths[0]);
      var rest :- ExtractAll(rd, paths[1..]);
      Success(first + rest)
  }

  /** Extracting two lists of files one after the other is extracting
      their concatenation. */
  lemma {:induction false} ExtractAppend(rd: Readers, a: seq<string>, b: seq<string>)
    ensures ExtractAll(rd, a + b) ==
              match ExtractAll(rd, a)
              case Failure(e) => Failure(e)
              case Success(x) =>
                match ExtractAll(rd, b)
                case Failure(e) => Failure(e)
                case Success(y) => Success(x + y)
  {
    if a != [] {
      assert (a + b)[1..] == a[1..] + b;
      ExtractAppend(rd, a[1..], b);
      match ReadFile(rd, a[0])
      case Failure(_) =>
      case Success(x0) =>
        match ExtractAll(rd, a[1..])
        case Failure(_) =>
        case Success(x1) =>
          match ExtractAll(rd, b)
          case Failure(_) =>
          case Success(y) =>
            assert x0 + (x1 + y) == (x0 + x1) + y;
    } else {
      assert a + b == b;
      match ExtractAll(rd, b)
      case Failure(_) =>
      case Success(y) => assert [] + y == y;
    }
  }

  /** The concatenation of a list of lists. */
  function Concat<T>(ss: seq<seq<T>>): seq<T> {
    if ss == [] then [] else ss[0] + Concat(ss[1..])
  }

  function TotalLength<T>(ss: seq<seq<T>>): nat {
    if ss == [] then 0 else |ss[0]| + TotalLength(ss[1..])
  }

  lemma {:induction false} ConcatLength<T>(ss: seq<seq<T>>)
    ensures |Concat(ss)| == TotalLength(ss)
  {
    if ss != [] {
      ConcatLength(ss[1..]);
    }
  }

  /** Every file's reader returns. */
  predicate AllRead(rd: Readers, paths: seq<string>) {
    forall i :: 0 <= i < |paths| ==> ReadFile(rd, paths[i]).Success?
  }

  /** The per-file outputs, in iteration order. */
  function Outputs(rd: Readers, paths: seq<string>): (outs: seq<seq<Record>>)
    requires AllRead(rd, paths)
    ensures |outs| == |paths|
    ensures forall i :: 0 <= i < |paths| ==> ReadFile(rd, paths[i]) == Success(outs[i])
  {
    seq(|paths|, i requires 0 <= i < |paths| => ReadFile(rd, paths[i]).value)
  }

  /** Extraction succeeds exactly when every file's reader returns; its
      result is then the per-file outputs concatenated in iteration order,
      and its length the sum of theirs. */
  lemma {:induction false} ExtractIsConcatenation(rd: Readers, paths: seq<string>)
    ensures ExtractAll(rd, paths).Success? <==> AllRead(rd, paths)
    ensures AllRead(rd, paths) ==>
              && ExtractAll(rd, paths) == Success(Concat(Outputs(rd, paths)))
              && |ExtractAll(rd, paths).value| == TotalLength(Outputs(rd, paths))
  {
    if paths != [] {
      ExtractIsConcatenation(rd, paths[1..]);
      if AllRead(rd, paths) {
        assert AllRead(rd, paths[1..]) by {
          forall i | 0 <= i < |paths| - 1 ensures ReadFile(rd, paths[1..][i]).Success? {
            assert paths[1..][i] == paths[i + 1];
          }
        }
        assert Outputs(rd, paths)[1..] == Outputs(rd, paths[1..]);
        ConcatLength(Outputs(rd, paths));
      } else if ReadFile(rd, paths[0]).Success? {
        var i :| 0 <= i < |paths| && !ReadFile(rd, paths[i]).Success?;
        assert paths[1..][i - 1] == paths[i];
      }
    }
  }

  /** The files before `i` all read and file `i` raises `e`. */
  ghost predicate FirstFailureAt(rd: Readers, paths: seq<string>, i: int, e: Error) {
    0 <= i < |paths| && ReadFile(rd, paths[i]) == Failure(e) && AllRead(rd, paths[..i])
  }

  /** Extraction fails exactly when some file's reader raises, and the
      error is that of the first such file in iteration order. */
  lemma ExtractFirstFailure(rd: Readers, paths: seq<string>, e: Error)
    ensures ExtractAll(rd, paths) == Failure(e) <==> exists i :: FirstFailureAt(rd, paths, i, e)
  {
    if ExtractAll(rd, paths) == Failure(e) {
      ExtractFailureFound(rd, paths, e);
    }
    if exists i :: FirstFailureAt(rd, paths, i, e) {
      var i :| FirstFailureAt(rd, paths, i, e);
      ExtractFailureReported(rd, paths, i, e);
    }
  }

  lemma {:induction false} ExtractFailureFound(rd: Readers, paths: seq<string>, e: Error)
    requires ExtractAll(rd, paths) == Failure(e)
    ensures exists i :: FirstFailureAt(rd, paths, i, e)
  {
    if ReadFile(rd, paths[0]).Failure? {
      assert FirstFailureAt(rd, paths, 0, e);
    } else {
      assert ExtractAll(rd, paths[1..]) == Failure(e);
      ExtractFailureFound(rd, paths[1..], e);
      var i :| FirstFailureAt(rd, paths[1..], i, e);
      assert paths[1..][i] == paths[i + 1];
      forall j | 0 <= j < i + 1 ensures ReadFile(rd, paths[j]).Success? {
        if j > 0 {
          assert paths[j] == paths[1..][..i][j - 1];
        }
      }
      assert FirstFailureAt(rd, paths, i + 1, e);
    }
  }

  lemma {:induction false} ExtractFailureReported(rd: Readers, paths: seq<string>, i: int, e: Error)
    requires FirstFailureAt(rd, paths, i, e)
    ensures ExtractAll(rd, paths) == Failure(e)
  {
    if i > 0 {
      assert paths[..i][0] == paths[0];
      assert paths[1..][..i - 1] == paths[..i][1..];
      assert paths[1..][i - 1] == paths[i];
      ExtractFailureReported(rd, paths[1..], i - 1, e);
    }
  }

  /** The paths the pipeline routes to a reader, in their order. */
  function Recognized(paths: seq<string>): (kept: seq<string>)
    ensures forall p :: p in kept <==> p in paths && FormatOf(p) != Unrecognized
  {
    if paths == [] then []
    else if FormatOf(paths[0]) == Unrecognized then Recognized(paths[1..])
    else [paths[0]] + Recognized(paths[1..])
  }

  /** Files of unrecognized kinds are skipped silently: removing them
      changes neither the records nor the error. */
  lemma {:induction false} ExtractSkipsUnrecognized(rd: Readers, paths: seq<string>)
    ensures ExtractAll(rd, paths) == ExtractAll(rd, Recognized(paths))
  {
    if paths != [] {
      ExtractSkipsUnrecognized(rd, paths[1..]);
      if FormatOf(paths[0]) == Unrecognized {
        assert ReadFile(rd, paths[0]) == Success([]);
        match ExtractAll(rd, paths[1..])
        case Failure(_) =>
        case Success(y) => assert [] + y == y;
      } else {
        assert ([paths[0]] + Recognized(paths[1..]))[1..] == Recognized(paths[1..]);
      }
    }
  }

  /** A file with none of the recognized suffixes, wherever it stands in
      the listing, changes neither the records nor the error, whatever the
      readers would do with it. */
  lemma ExtractDropsUnrecognized(rd: Readers, a: seq<string>, path: string, b: seq<string>)
    requires !EndsWith(path, ".csv") && !EndsWith(path, ".json") && !EndsWith(path, ".xml")
    ensures ExtractAll(rd, a + [path] + b) == ExtractAll(rd, a + b)
  {
    assert a + [path] + b == a + ([path] + b);
    ExtractAppend(rd, a, [path] + b);
    ExtractAppend(rd, a, b);
    assert ([path] + b)[1..] == b;
    match ExtractAll(rd, b)
    case Failure(_) =>
    case Success(y) => assert [] + y == y;
  }

  /** Extraction only ever fails with a read error, on one of the listed
      files. */
  lemma {:induction false} ExtractErrorIsRead(rd: Readers, paths: seq<string>)
    ensures ExtractAll(rd, paths).Failure? ==>
              ExtractAll(rd, paths).error.ReadFailed? && ExtractAll(rd, paths).error.path in paths
  {
    if paths != [] {
      ExtractErrorIsRead(rd, paths[1..]);
    }
  }

  /** The loop of `extract_files`: read each file in turn and extend the
      combined list with its records. */
  method ExtractFiles(rd: Readers, paths: seq<string>) returns (r: Result<seq<Record>, Error>)
    ensures r == ExtractAll(rd, paths)
  {
    var combined: seq<Record> := [];
    var i := 0;
    while i < |paths|
      invariant 0 <= i <= |paths|
      invariant ExtractAll(rd, paths[..i]) == Success(combined)
    {
      ExtractAppend(rd, paths[..i], [paths[i]]);
      assert paths[..i + 1] == paths[..i] + [paths[i]];
      assert ExtractAll(rd, [paths[i]]) == match ReadFile(rd, paths[i]) case Success(x) => Success(x + []) case Failure(e) => Failure(e);
      var chunk := ReadFile(rd, paths[i]);
      if chunk.Failure? {
        ExtractAppend(rd, paths[..i + 1], paths[i + 1..]);
        assert paths[..i + 1] + paths[i + 1..] == paths;
        return Failure(chunk.error);
      }
      assert chunk.value + [] == chunk.value;
      combined := combined + chunk.value;
      i := i + 1;
    }
    assert paths[..i] == paths;
    r := Success(combined);
  }
}

/** The tail of the main program (etl_script.py): the staged batch is
    `transform(extract_files(...))`, and only a non-empty batch is loaded,
    first into a flat file, then uploaded, then into a table. Failures of
    the first two loads end the run; `load_to_rds` catches a failure of
    the table load and only reports it. The sinks are parameters that say
    whether each call returned or raised. */
module Pipeline {
  import opened Fallible
  import opened Records
  import opened Errors
  import opened Extract
  import opened Transformation

  const OutputFile: string := "final_transformed_data.csv"
  const Bucket: string := "deminiproj3"
  const TransformedFolder: string := "Destination/"
  const TableName: string := "etl_table"

  /** Where the flat file is uploaded: the transformed-data folder followed
      by the file name. */
  const TransformedKey: string := TransformedFolder + OutputFile

  /** The external writers; each returns true when the call returns and
      false when it raises. */
  datatype Sinks = Sinks(
    writeCsv: (string, seq<Record>) -> bool,       // pd.DataFrame(data).to_csv(file, index=False)
    upload: (string, string, string) -> bool,      // s3_client.upload_file(file, bucket, key)
    replaceTable: (string, seq<Record>) -> bool)   // to_sql(table, if_exists='replace', index=False)

  /** The calls made to the sinks, and the one error report that stands in
      for a swallowed table failure. */
  datatype Action =
    | WriteFlatFile(file: string, rows: seq<Record>)
    | Upload(file: string, bucket: string, key: string)
    | ReplaceTable(table: string, rows: seq<Record>)
    | ReportTableError(table: string)

  /** What a run does: the sink calls in order, and how it ends (the loaded
      batch, or the exception that ends it). */
  datatype Run = Run(actions: seq<Action>, outcome: Result<seq<Record>, Error>)

  /** `transform(extract_files(...))`: a read error ends the run before any
      record is transformed. */
  function Stage(rd: Readers, parse: string -> Option<real>, paths: seq<string>): Result<seq<Record>, Error> {
    var data :- ExtractAll(rd, paths);
    Transform(parse, data)
  }

  /** `load_to_rds`: the table write is attempted, and a failure of it is
      reported instead of raised. */
  function LoadToRds(sinks: Sinks, rows: seq<Record>, table: string): seq<Action> {
    if sinks.replaceTable(table, rows) then [ReplaceTable(table, rows)]
    else [ReplaceTable(table, rows), ReportTableError(table)]
  }

  /** The body of `if transformed_data:`. */
  function Load(sinks: Sinks, rows: seq<Record>): Run {
    var write := WriteFlatFile(OutputFile, rows);
    if !sinks.writeCsv(OutputFile, rows) then
      Run([write], Failure(SinkFailed(FlatFile)))
    else
      var up := Upload(OutputFile, Bucket, TransformedKey);
      if !sinks.upload(OutputFile, Bucket, TransformedKey) then
        Run([write, up], Failure(SinkFailed(ObjectStore)))
      else
        Run([write, up] + LoadToRds(sinks, rows, TableName), Success(rows))
  }

  /** The run from extraction on, over the downloaded files `paths` in
      listing order. */
  function Main(rd: Readers, parse: string -> Option<real>, paths: seq<string>, sinks: Sinks): Run {
    match Stage(rd, parse, paths)
    case Failure(e) => Run([], Failure(e))
    case Success(rows) =>
      if rows == [] then Run([], Success(rows)) else Load(sinks, rows)
  }

  /** A sink is called exactly when staging succeeds with a non-empty
      batch. */
  lemma LoadsOnlyWhenNonEmpty(rd: Readers, parse: string -> Option<real>, paths: seq<string>, sinks: Sinks)
    ensures Main(rd, parse, paths, sinks).actions != [] <==>
              Stage(rd, parse, paths).Success? && Stage(rd, parse, paths).value != []
  {
  }

  /** A read error ends the run before the transform: the run is the same
      whatever the number parser does, and no sink is called. */
  lemma ReadErrorAborts(rd: Readers, parse: string -> Option<real>, parse': string -> Option<real>,
                        paths: seq<string>, sinks: Sinks)
    requires ExtractAll(rd, paths).Failure?
    ensures Main(rd, parse, paths, sinks) == Run([], Failure(ExtractAll(rd, paths).error))
    ensures Main(rd, parse, paths, sinks) == Main(rd, parse', paths, sinks)
  {
  }

  /** Staging ends only with a read error or a number error, never with
      the error of a sink. */
  lemma StageErrorIsNotSink(rd: Readers, parse: string -> Option<real>, paths: seq<string>)
    ensures Stage(rd, parse, paths).Failure? ==> !Stage(rd, parse, paths).error.SinkFailed?
  {
    ExtractErrorIsRead(rd, paths);
    if ExtractAll(rd, paths).Success? {
      TransformErrorIsNumber(parse, ExtractAll(rd, paths).value);
    }
  }

  /** The run gets as far as the table: staging yields a non-empty batch,
      and both the flat file and its upload return. */
  predicate ReachesTable(rd: Readers, parse: string -> Option<real>, paths: seq<string>, sinks: Sinks) {
    var st := Stage(rd, parse, paths);
    && st.Success? && st.value != []
    && sinks.writeCsv(OutputFile, st.value)
    && sinks.upload(OutputFile, Bucket, TransformedKey)
  }

  /** How a run ends. It succeeds, with the staged batch, exactly when the
      batch is empty or the run reaches the table, whatever the table load
      does. It fails with the flat-file error exactly when a non-empty
      batch cannot be written, and with the upload error exactly when the
      written file cannot be uploaded. Any other failure is the staging
      error itself. */
  lemma MainOutcome(rd: Readers, parse: string -> Option<real>, paths: seq<string>, sinks: Sinks)
    ensures Main(rd, parse, paths, sinks).outcome.Success? <==>
              Stage(rd, parse, paths) == Success([]) || ReachesTable(rd, parse, paths, sinks)
    ensures Main(rd, parse, paths, sinks).outcome.Success? ==>
              Main(rd, parse, paths, sinks).outcome.value == Stage(rd, parse, paths).value
    ensures var st := Stage(rd, parse, paths);
            Main(rd, parse, paths, sinks).outcome == Failure(SinkFailed(FlatFile)) <==>
              st.Success? && st.value != [] && !sinks.writeCsv(OutputFile, st.value)
    ensures var st := Stage(rd, parse, paths);
            Main(rd, parse, paths, sinks).outcome == Failure(SinkFailed(ObjectStore)) <==>
              && st.Success? && st.value != [] && sinks.writeCsv(OutputFile, st.value)
              && !sinks.upload(OutputFile, Bucket, TransformedKey)
    ensures var out := Main(rd, parse, paths, sinks).outcome;
            out.Failure? && !out.error.SinkFailed? <==> Stage(rd, parse, paths).Failure?
    ensures Stage(rd, parse, paths).Failure? ==>
              Main(rd, parse, paths, sinks).outcome == Failure(Stage(rd, parse, paths).error)
  {
    StageErrorIsNotSink(rd, parse, paths);
  }

  /** The calls a run makes, in order: at most four. The flat file is
      written first, with the staged batch; the upload, of that file to the
      transformed-data folder, comes second and only after the write
      returned; the table is replaced, with the staged batch, third; an
      error report comes last. */
  lemma MainTrace(rd: Readers, parse: string -> Option<real>, paths: seq<string>, sinks: Sinks)
    ensures var acts := Main(rd, parse, paths, sinks).actions;
            |acts| <= 4 &&
            forall i :: 0 <= i < |acts| ==>
              && Stage(rd, parse, paths).Success?
              && (acts[i].WriteFlatFile? ==> i == 0 && acts[i] == WriteFlatFile(OutputFile, Stage(rd, parse, paths).value))
              && (acts[i].Upload? ==>
                    && i == 1 && acts[i] == Upload(OutputFile, Bucket, TransformedKey)
                    && sinks.writeCsv(OutputFile, Stage(rd, parse, paths).value))
              && (acts[i].ReplaceTable? ==> i == 2 && acts[i].table == TableName && acts[i].rows == Stage(rd, parse, paths).value)
              && (acts[i].ReportTableError? ==> i == 3 && acts[i].table == TableName)
    ensures Main(rd, parse, paths, sinks).actions != [] ==>
              Main(rd, parse, paths, sinks).actions[0].WriteFlatFile?
  {
    var st := Stage(rd, parse, paths);
    if st.Success? && st.value != [] {
      LoadTrace(sinks, st.value);
    }
  }

  lemma LoadTrace(sinks: Sinks, rows: seq<Record>)
    ensures var acts := Load(sinks, rows).actions;
            1 <= |acts| <= 4 &&
            forall i :: 0 <= i < |acts| ==>
              && (acts[i].WriteFlatFile? ==> i == 0 && acts[i] == WriteFlatFile(OutputFile, rows))
              && (acts[i].Upload? ==>
                    i == 1 && acts[i] == Upload(OutputFile, Bucket, TransformedKey) && sinks.writeCsv(OutputFile, rows))
              && (acts[i].ReplaceTable? ==> i == 2 && acts[i].table == TableName && acts[i].rows == rows)
              && (acts[i].ReportTableError? ==> i == 3 && acts[i].table == TableName)
    ensures Load(sinks, rows).actions[0].WriteFlatFile?
  {
  }

  /** The table is replaced, with the staged batch, exactly when the run
      reaches it, and the error report is made exactly when that table
      load raises. */
  lemma MainTableCalls(rd: Readers, parse: string -> Option<real>, paths: seq<string>, sinks: Sinks)
    ensures ReachesTable(rd, parse, paths, sinks) <==>
              (Stage(rd, parse, paths).Success? &&
               ReplaceTable(TableName, Stage(rd, parse, paths).value) in Main(rd, parse, paths, sinks).actions)
    ensures ReportTableError(TableName) in Main(rd, parse, paths, sinks).actions <==>
              ReachesTable(rd, parse, paths, sinks) && !sinks.replaceTable(TableName, Stage(rd, parse, paths).value)
  {
  }

  /** A failing table load changes nothing but the error report: the run
      ends the same way whatever the table load does, and it makes the
      calls of a run whose table load returns, plus one report exactly
      when the run reaches the table and the table load raises. */
  lemma TableFailureSwallowed(rd: Readers, parse: string -> Option<real>, paths: seq<string>,
                              sinks: Sinks, r: (string, seq<Record>) -> bool)
    ensures Main(rd, parse, paths, sinks.(replaceTable := r)).outcome == Main(rd, parse, paths, sinks).outcome
    ensures var ok := sinks.(replaceTable := (t, rows) => true);
            Main(rd, parse, paths, sinks).actions ==
              Main(rd, parse, paths, ok).actions +
              if ReachesTable(rd, parse, paths, sinks) && !sinks.replaceTable(TableName, Stage(rd, parse, paths).value)
              then [ReportTableError(TableName)] else []
  {
  }

  /** An empty download directory gives an empty batch and no load. */
  lemma EmptyDirectory(rd: Readers, parse: string -> Option<real>, sinks: Sinks)
    ensures Main(rd, parse, [], sinks) == Run([], Success([]))
  {
  }

  /** A directory holding only files of unrecognized kinds behaves like an
      empty one. */
  lemma OnlyUnrecognizedFiles(rd: Readers, parse: string -> Option<real>, paths: seq<string>, sinks: Sinks)
    requires forall i :: 0 <= i < |paths| ==> FormatOf(paths[i]) == Unrecognized
    ensures Main(rd, parse, paths, sinks) == Run([], Success([]))
  {
    ExtractSkipsUnrecognized(rd, paths);
  }
}

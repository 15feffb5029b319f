/** The exceptions of the pipeline that reach the top level and end the
    run. A failure of the table load is not among them: `load_to_rds`
    catches it. */
module Errors {
  import opened Records

  /** The sinks whose failures propagate. */
  datatype Sink = FlatFile | ObjectStore

  datatype Error =
    | ReadFailed(path: string)               // a reader raised on a file of a recognized kind
    | NotANumber(key: string, value: Value)  // `float(value)` raised on a converted field
    | SinkFailed(sink: Sink)                 // `to_csv` or the upload raised
}

/** The JSON-like documents the build pipeline reads and writes, and the
    failure-carrying wrappers the other modules share. */
module Document {

  datatype Option<+T> = None | Some(value: T)

  datatype Result<+T, +E> = Ok(value: T) | Err(error: E)

  /** A parsed YAML/JSON node. Only the shape matters to the pipeline:
      plain objects are descended into, everything else is a leaf for the
      feature walk. `Scalar` stands for every non-container leaf (string,
      number, boolean, null) and carries its text. */
  datatype Value =
    | Obj(fields: map<string, Value>)
    | Arr(items: seq<Value>)
    | Scalar(text: string)

  /** A top-level document: the object a data file parses to. */
  type Doc = map<string, Value>
}

/** JSON documents as the batch script sees them once `json.load` has decoded
    a file, and the two outcomes shared by every step of the pipeline. */
module Json {

  /** A decoded JSON value. Objects are key/value maps; numbers are kept as
      integers because the pipeline never inspects them. */
  datatype Value =
    | JNull
    | JBool(b: bool)
    | JNum(n: int)
    | JStr(s: string)
    | JArr(items: seq<Value>)
    | JObj(fields: map<string, Value>)

  /** A JSON record: the shape of a post once it has been read as an object. */
  type Record = map<string, Value>

  /** One `json.dump` of `document` to the file at `path`. */
  datatype Dump = Dump(path: string, document: Value)

  /** The Python exceptions the pipeline can meet, by kind. */
  datatype Error =
    | KeyError(key: string)   // subscript of a key the object does not hold
    | TypeError               // subscript or iteration of a value of the wrong kind
    | AttributeError          // `.encode` or `.lower` called on something that is not a string
    | ModelCallError          // the language-model call raised
    | ParserError             // the output parser raised something other than a parse failure
    | UnorderedKeys           // iteration over a JSON object, whose key order is not kept here

  datatype Result<+T> = Ok(value: T) | Err(error: Error)

  /** The JSON array holding `strs`, one string element each, in order. */
  function StringArray(strs: seq<string>): (v: Value)
    ensures v.JArr? && |v.items| == |strs|
    ensures forall i :: 0 <= i < |strs| ==> v.items[i] == JStr(strs[i])
  {
    JArr(seq(|strs|, i requires 0 <= i < |strs| => JStr(strs[i])))
  }

  /** The JSON array holding `recs`, one object element each, in order. */
  function RecordArray(recs: seq<Record>): (v: Value)
    ensures v.JArr? && |v.items| == |recs|
    ensures forall i :: 0 <= i < |recs| ==> v.items[i] == JObj(recs[i])
  {
    JArr(seq(|recs|, i requires 0 <= i < |recs| => JObj(recs[i])))
  }
}

/** JSON values as the patch engine sees them, and the outcomes of its
    operations. Numbers are unbounded integers (JavaScript numbers are
    doubles; fractions and overflow are not part of this model). */
module JsonTypes {

  /** A JSON value: the document, an operation's `value`, or any part of them.
      Objects are maps: key order is not part of the model. */
  datatype Json =
    | JNull
    | JBool(b: bool)
    | JNum(n: int)
    | JStr(s: string)
    | JArr(items: seq<Json>)
    | JObj(props: map<string, Json>)

  /** The kinds of failure the engine raises. `NotExist` carries the pointer
      named in the message `path … does not exist`, `Banned` the raw token of
      the message `can't mutate … it is banned`; `AssertionFailed` is the error
      whose `code` is `ERR_ASSERTION`. `RuntimeFault` stands for the
      TypeErrors and other runtime artefacts of JavaScript that have no JSON
      counterpart (reading a property of `null`, writing a property of a
      scalar, writing a sparse index into an array). */
  datatype Error =
    | NotExist(path: string)
    | Banned(component: string)
    | AssertionFailed
    | RuntimeFault

  datatype Option<+T> = None | Some(value: T)

  /** A value or the error that was thrown instead. */
  datatype Result<+T> = Ok(value: T) | Err(error: Error) {
    predicate IsFailure() {
      Err?
    }

    function PropagateFailure<U>(): Result<U>
      requires Err?
    {
      Err(error)
    }

    function Extract(): T
      requires Ok?
    {
      value
    }
  }

  /** JavaScript's `typeof` of a JSON value: `null`, arrays and objects are
      all "object". */
  function TypeOf(j: Json): string
  {
    match j
    case JNull => "object"
    case JBool(_) => "boolean"
    case JNum(_) => "number"
    case JStr(_) => "string"
    case JArr(_) => "object"
    case JObj(_) => "object"
  }
}

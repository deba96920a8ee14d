/** Option and Result values used where the JavaScript code returns
    `undefined`/`null` or throws an `Error` with a message. */
module Results {

  datatype Option<T> = None | Some(value: T)

  /** `Err(message)` stands for a thrown `Error(message)`. */
  datatype Result<T> = Ok(value: T) | Err(message: string)

  /** The zero- or one-element sequence holding the value of `o`. */
  function ToSeq<T>(o: Option<T>): (s: seq<T>)
    ensures |s| <= 1
    ensures o.Some? <==> |s| == 1
    ensures o.Some? ==> s[0] == o.value
  {
    match o
    case None => []
    case Some(v) => [v]
  }
}

/** Values shared by every part of the concept-map model. */
module Codes {

  /** Python's `None` or a value. */
  datatype Option<T> = None | Some(value: T)

  /** Python's `str(x)` for a nullable text column: `None` prints as "None". */
  function PyStr(o: Option<string>): (r: string)
    ensures o.Some? ==> r == o.value
    ensures o.None? ==> r == "None"
  {
    match o
    case None => "None"
    case Some(s) => s
  }

  /**
   * A coded term: terminology system URI, terminology version, code and display.
   * Two codes are equal exactly when all four fields are equal, which is the
   * equality the index's lookups rely on.
   */
  datatype Code = Code(system: string, version: string, code: string, display: string)
}

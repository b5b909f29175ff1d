/** Optional arguments and the failures the seven-segment widgets raise. */
module Results {

  /** An optional argument: `None` stands for Python's `None`. */
  datatype Option<+T> = None | Some(value: T)

  /** The exceptions the constructors and setters raise. */
  datatype Error =
    | UnknownGlyph(c: char)   // `assert char in SSD_CHAR_MAP` failed
    | EmptyContent            // ValueError("Empty content, ...")
    | DisplayTooSmall         // ValueError("Display width too small")
    | GeometryAssertion       // one of the two asserts in `_get_segment_points` failed

  /** Either the value an operation returns or the exception it raises. */
  datatype Result<+T> = Ok(value: T) | Err(error: Error)

  /** Python truthiness of an optional number: `None` and zero are both falsy. */
  predicate Falsy(x: Option<real>) {
    x.None? || x.value == 0.0
  }

  /** `given if given else fallback`, the idiom every default argument uses. */
  function Pick(given: Option<real>, fallback: real): (r: real)
    ensures Falsy(given) ==> r == fallback
    ensures !Falsy(given) ==> r == given.value && r != 0.0
  {
    if Falsy(given) then fallback else given.value
  }
}

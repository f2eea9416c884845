/** Optional values, and results carrying the ways an LVB decode can fail. */
module Outcomes {
  import opened Bytes

  datatype Option<+T> = None | Some(value: T)

  /** The exceptions the decoder raises, one variant per cause. */
  datatype Error =
    | BadSignature                 // bytes 0..3 are not "LVLB"
    | Truncated                    // a fixed-width read ran past the end of its slice
    | StalledWalk(offset: nat)     // a section declares size 0, so the walk cannot advance
    | MissingSection(magic: bytes) // no INFO, XFRM or STRG section
    | UnresolvedInfo(index: nat)   // an info index past the end of INFO
    | UnresolvedXform(index: nat)  // a transform index past the end of XFRM
    | UnterminatedString(offset: nat)  // no zero byte at or after a string offset

  datatype Result<+T> = Ok(value: T) | Err(error: Error) {

    predicate IsFailure() {
      Err?
    }

    function PropagateFailure<U>(): Result<U>
      requires Err?
    {
      Err(error)
    }

    function Extract(): T
      requires Ok?
    {
      value
    }
  }
}

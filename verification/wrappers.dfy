/** Failure-compatible helper datatypes shared by the decoder and the codec. */
module Wrappers {

  /** An optional value: `None` when there is nothing to report. */
  datatype Option<+T> = None | Some(value: T)
}

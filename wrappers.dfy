/** The optional-value datatype used for the completion service's answer and
    for the outcome of parsing one response line. */
module Wrappers {

  datatype Option<+T> = None | Some(value: T)
}

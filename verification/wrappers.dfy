/** The optional-value datatype shared by the decoder and the scan selection.
    It plays the role of Rust's `Option` in the modelled program. */
module Wrappers {

  datatype Option<+T> = None | Some(value: T)
}

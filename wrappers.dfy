/** The optional value used throughout the model for JavaScript's
    `undefined` results (`Array.find`, a missing dictionary entry). */
module Wrappers {

  datatype Option<+T> = None | Some(value: T)
}

/** The optional-value datatype used throughout the model. A JavaScript value that is
    `NaN`, infinite or absent is `None`; a finite number is `Some`. */
module Wrappers {

  datatype Option<+T> = None | Some(value: T)
}

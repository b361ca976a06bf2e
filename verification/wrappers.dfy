/** An optional value: `None` stands for JavaScript's `undefined`/`NaN`
    results in the listener bundle and for absent request fields. */
module Wrappers {

  datatype Option<+T> = None | Some(value: T)
}

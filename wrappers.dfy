/** The absent-or-present value used for JavaScript's `undefined`, and JavaScript
    truthiness of an optional string. */
module Wrappers {

  datatype Option<+T> = None | Some(value: T)

  /** `if (x)` on a value that is either `undefined` or a string: "" is falsy too. */
  predicate Truthy(x: Option<string>)
  {
    x.Some? && x.value != ""
  }
}

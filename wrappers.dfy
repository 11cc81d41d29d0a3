/** The optional-value datatype shared by the modules of this model. */
module Wrappers {

  /** `None` stands for JavaScript's `undefined` or `null` where a value is optional. */
  datatype Option<+T> = None | Some(value: T) {

    /** The value, or `default` when there is none (JavaScript's `x ?? default`). */
    function GetOr(default: T): (r: T)
      ensures Some? ==> r == value
      ensures None? ==> r == default
    {
      match this
      case Some(v) => v
      case None => default
    }
  }
}

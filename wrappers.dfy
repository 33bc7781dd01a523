/** The optional-value datatype shared by the model: JavaScript's `null`/`undefined`
    become `None`, a present value becomes `Some`. */
module Wrappers {

  datatype Option<+T> = None | Some(value: T) {

    /** The value, or the given default when absent. */
    function GetOr(default: T): T {
      match this
      case Some(v) => v
      case None => default
    }
  }
}

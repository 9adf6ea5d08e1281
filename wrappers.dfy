/** Option type shared by the model: `None` stands for Python's `None`
    (an absent key, a missing hash field, a record that cannot be loaded). */
module Wrappers {

  datatype Option<+T> = None | Some(value: T) {

    /** The wrapped value, or `default` when there is none. */
    function GetOr(default: T): T {
      match this
      case Some(v) => v
      case None => default
    }
  }
}

/** Nullable values of the C# code: `null` is `None`. */
module Wrappers {
  datatype Option<T> = None | Some(value: T)
  {
    function GetOr(default: T): T
    {
      match this
      case None => default
      case Some(v) => v
    }

    /** C#'s `a ?? b` on nullable values. */
    function OrElse(other: Option<T>): Option<T>
    {
      if this.Some? then this else other
    }
  }
}

// The optional value used wherever JavaScript may produce "nothing" (a lookup
// that throws, a key that is not an index).
module Wrappers {
  datatype Option<T> = None | Some(value: T)
  {
    function GetOr(default: T): T
    {
      match this
      case Some(v) => v
      case None => default
    }
  }
}

/** The absent-or-present value that JavaScript spells `undefined`/`null` versus a value. */
module Wrappers {

  datatype Option<+T> = None | Some(value: T) {

    /** Returns the value, or `default` when absent (`_.get(obj, path, default)`). */
    function GetOr(default: T): T {
      match this
      case Some(v) => v
      case None => default
    }
  }

  /** Applies `f` to a present value; absent stays absent (`.map(f).then(_.first)` on at most one item). */
  function MapOption<T, U>(o: Option<T>, f: T -> U): (r: Option<U>)
    ensures r.Some? <==> o.Some?
    ensures o.Some? ==> r.value == f(o.value)
  {
    match o
    case Some(v) => Some(f(v))
    case None => None
  }
}

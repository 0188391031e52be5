/** Kotlin's nullable types (`T?`) and the `x?.let { field = it }` idiom. */
module Nullable {

  /** `T?`: `None` stands for `null`. */
  datatype Option<+T> = None | Some(value: T) {

    /** `this ?: default` */
    function GetOr(default: T): T {
      match this
      case Some(v) => v
      case None => default
    }
  }

  /** The value a field holds after `update?.let { field = it }`:
      a null argument leaves the current value in place. */
  function Override<T>(update: Option<T>, current: T): (r: T)
    ensures update.None? ==> r == current
    ensures update.Some? ==> r == update.value
  {
    update.GetOr(current)
  }

  /** The same for a nullable field: a null argument cannot set it back to null. */
  function OverrideNullable<T>(update: Option<T>, current: Option<T>): (r: Option<T>)
    ensures update.None? ==> r == current
    ensures update.Some? ==> r == update
    ensures current.Some? ==> r.Some?
  {
    if update.Some? then update else current
  }

}

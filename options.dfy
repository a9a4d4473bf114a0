// Optional values: a lookup that may find nothing.
module Options {

  datatype Option<+T> = None | Some(value: T)

  /** The first option if it holds a value, otherwise the second. */
  function Or<T>(first: Option<T>, second: Option<T>): (r: Option<T>)
    ensures first.Some? ==> r == first
    ensures first.None? ==> r == second
  {
    if first.Some? then first else second
  }
}

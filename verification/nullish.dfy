/** A value that may be missing: a JSON field that is absent or null, or a
    lookup that finds nothing. */
module Nullish {

  datatype Maybe<T> = Absent | Present(value: T)

  /** JavaScript's `o ?? fallback`: the value when there is one, else the fallback. */
  function Coalesce<T>(o: Maybe<T>, fallback: T): (r: T)
    ensures o.Present? ==> r == o.value
    ensures o.Absent? ==> r == fallback
  {
    if o.Present? then o.value else fallback
  }
}

/** Present-or-absent values, the model of Python's `None`-able attributes. */
module Optional {

  datatype Option<+T> = None | Some(value: T) {

    /** The present value, or `default` when absent. */
    function GetOr(default: T): T
    {
      match this
      case Some(v) => v
      case None => default
    }
  }

  /** The "change wins if present" rule applied to one field. */
  function Override<T>(base: Option<T>, change: Option<T>): (r: Option<T>)
    ensures change.Some? ==> r == change
    ensures change.None? ==> r == base
  {
    if change.Some? then change else base
  }

  lemma OverrideAssociative<T>(a: Option<T>, b: Option<T>, c: Option<T>)
    ensures Override(Override(a, b), c) == Override(a, Override(b, c))
  {
  }

  function Max(a: int, b: int): (r: int)
    ensures r >= a && r >= b
    ensures r == a || r == b
  {
    if a >= b then a else b
  }
}

/** Building blocks shared by every module. */
module Base {
  /** A value that may be absent: Python's `None` versus a present value. */
  datatype Option<T> = None | Some(value: T)

  /** A non-empty list is its first entry followed by the rest. */
  lemma {:induction false} ConsTail<T>(xs: seq<T>)
    requires xs != []
    ensures xs == [xs[0]] + xs[1..]
  {
  }
}

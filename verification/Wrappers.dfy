module Wrappers {
  datatype Option<+T> = None | Some(value: T)

  datatype Result<+T, +E> = Ok(value: T) | Err(error: E)

  /** The present values, in order. */
  function Somes<T>(xs: seq<Option<T>>): seq<T> {
    if xs == [] then []
    else
      var last := xs[|xs| - 1];
      Somes(xs[..|xs| - 1]) + (if last.None? then [] else [last.value])
  }

  lemma {:induction false} SomesBound<T>(xs: seq<Option<T>>)
    ensures |Somes(xs)| <= |xs|
    ensures |Somes(xs)| == |xs| <==> forall i | 0 <= i < |xs| :: xs[i].Some?
    ensures |Somes(xs)| == |xs| ==> forall i | 0 <= i < |xs| :: Somes(xs)[i] == xs[i].value
    decreases |xs|
  {
    if xs != [] {
      SomesBound(xs[..|xs| - 1]);
    }
  }
}

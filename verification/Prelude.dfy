/** Small datatypes shared by every module. */
module Prelude {

  datatype Option<+T> = None | Some(value: T)

  datatype Result<+R, +E> = Success(value: R) | Failure(error: E)

  /** An opaque identifier; only equality matters. */
  datatype Id = Id(text: string)

  /** The status column of a task. */
  datatype Status = Pending | InProgress | Completed | Failed | Cancelled

  /** Python iterates a set in some order; callers may rely on no particular one. */
  method SetToSeq<T(==)>(s: set<T>) returns (items: seq<T>)
    ensures forall x :: x in items <==> x in s
    ensures |items| == |s|
  {
    items := [];
    var rest := s;
    while rest != {}
      invariant rest <= s
      invariant forall x :: x in items <==> x in s - rest
      invariant |items| + |rest| == |s|
      decreases rest
    {
      var x :| x in rest;
      rest := rest - {x};
      items := items + [x];
    }
  }
}

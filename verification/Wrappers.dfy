/** Failure-carrying values shared by the models of the cluster package. */
module Wrappers {
  datatype Option<+T> = None | Some(value: T)

  datatype Result<+T, +E> = Ok(value: T) | Err(error: E)

  // The bounds of the source's int64.
  const MAX_INT64: int := 0x7fff_ffff_ffff_ffff

  lemma AnyMember<T>(s: set<T>) returns (x: T)
    requires s != {}
    ensures x in s
  {
    x :| x in s;
  }
}

/**
 * What is shared by the other modules: optional values, results and the ids of the storage.
 */
module Wrappers {
  datatype Option<T> = None | Some(value: T)

  datatype Result<T, E> = Ok(value: T) | Err(error: E)

  /** The next free id: one more than the largest in use. */
  method NewID(used: set<nat>) returns (id: nat)
    ensures id !in used && id > 0 && (id == 1 || id - 1 in used)
  {
    id := 1;
    var rest := used;
    while rest != {}
      invariant id > 0 && (id == 1 || id - 1 in used)
      invariant rest <= used && forall e :: e in used && e !in rest ==> e < id
      decreases rest
    {
      var e :| e in rest;
      rest := rest - {e};
      if e >= id {
        id := e + 1;
      }
    }
  }
}

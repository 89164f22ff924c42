/** The two failure-carrying datatypes every other module uses, and fresh numbers. */
module Prelude {
  datatype Option<+T> = None | Some(value: T)

  datatype Result<+T, +E> = Ok(value: T) | Err(error: E)

  /** There is always another number. */
  lemma FreshNumber(used: set<nat>) returns (n: nat)
    ensures n !in used
  {
    var bound: nat := 0;
    var rest := used;
    while rest != {}
      invariant rest <= used
      invariant forall x <- used :: x in rest || x < bound
      decreases rest
    {
      var x :| x in rest;
      rest := rest - {x};
      bound := if x < bound then bound else x + 1;
    }
    n := bound;
  }
}

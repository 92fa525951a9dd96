/** Optional values, results and runs, shared by the modules of the model. */
module Wrappers {
  datatype Option<+T> = None | Some(value: T)

  datatype Result<+T, +E> = Ok(value: T) | Err(error: E)

  /** Where a run of events leads, if every one of them can happen when its turn comes. */
  function Iterate<S, E>(next: (S, E) -> Option<S>, start: S, run: seq<E>): (end: Option<S>)
    decreases |run|
  {
    if run == [] then Some(start)
    else
      var after := next(start, run[0]);
      if after.None? then None else Iterate(next, after.value, run[1..])
  }

  lemma IterateOne<S, E>(next: (S, E) -> Option<S>, start: S, e: E)
    ensures Iterate(next, start, [e]) == next(start, e)
  {
    assert [e][1..] == [];
    if next(start, e).Some? {
      assert Iterate(next, next(start, e).value, [e][1..]) == next(start, e);
    }
  }

  lemma {:induction false} IterateComposes<S, E>(next: (S, E) -> Option<S>, start: S, a: seq<E>, b: seq<E>)
    requires Iterate(next, start, a).Some?
    ensures Iterate(next, start, a + b) == Iterate(next, Iterate(next, start, a).value, b)
    decreases |a|
  {
    if a == [] {
      assert a + b == b;
    } else {
      IterateComposes(next, next(start, a[0]).value, a[1..], b);
      assert (a + b)[1..] == a[1..] + b;
    }
  }
}

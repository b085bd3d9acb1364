/** Finite runs of a step function.

A protocol is a state type, an action type that names every scheduling choice, and a
step function that returns `None` where the action is not enabled. A run is any finite
sequence of actions, so a statement about all runs covers every interleaving. */
module Runs {

  datatype Option<+T> = None | Some(value: T) {
    predicate IsFailure() {
      None?
    }

    function PropagateFailure<U>(): Option<U>
      requires None?
    {
      None
    }

    function Extract(): T
      requires Some?
    {
      value
    }
  }

  /** The state after `acts`, or `None` as soon as one action is not enabled. */
  function Exec<S, A>(step: (S, A) -> Option<S>, init: S, acts: seq<A>): (r: Option<S>)
  {
    if acts == [] then Some(init)
    else
      match Exec(step, init, acts[..|acts| - 1])
      case None => None
      case Some(s) => step(s, acts[|acts| - 1])
  }

  /** Running `more` from where `acts` ended is running both in sequence. */
  lemma {:induction false} Compose<S, A>(step: (S, A) -> Option<S>, init: S, acts: seq<A>, more: seq<A>)
    requires Exec(step, init, acts).Some?
    ensures Exec(step, init, acts + more) == Exec(step, Exec(step, init, acts).value, more)
  {
    if more == [] {
      assert acts + more == acts;
    } else {
      var front := more[..|more| - 1];
      assert (acts + more)[..|acts + more| - 1] == acts + front;
      Compose(step, init, acts, front);
    }
  }
}

/** Runs of a protocol.

    Every protocol of this project is a deterministic function `step` from a state and an event
    to the next state; `None` says that the event is not possible in that state.  The event names
    the party that moves and resolves its choices, so an interleaving is a sequence of events.
 */
module Runs {

  datatype Option<+T> = None | Some(value: T)

  /** The state that a sequence of events leads to, or `None` if one of them is not possible. */
  function Exec<S, E>(step: (S, E) -> Option<S>, s: S, events: seq<E>): Option<S>
    decreases |events|
  {
    if events == [] then Some(s)
    else match step(s, events[0])
      case None => None
      case Some(t) => Exec(step, t, events[1..])
  }

  ghost predicate Preserves<S(!new), E(!new)>(step: (S, E) -> Option<S>, inv: S -> bool) {
    forall s, e :: inv(s) && step(s, e).Some? ==> inv(step(s, e).value)
  }

  /** What every step keeps holds at the end of every run. */
  lemma {:induction false} Invariance<S(!new), E(!new)>(
      step: (S, E) -> Option<S>, inv: S -> bool, s: S, events: seq<E>)
    requires inv(s) && Preserves(step, inv)
    ensures var r := Exec(step, s, events); r.Some? ==> inv(r.value)
    decreases |events|
  {
    if events != [] {
      var t := step(s, events[0]);
      if t.Some? {
        Invariance(step, inv, t.value, events[1..]);
      }
    }
  }

  /** A run of `a` followed by a run of `b` is a run of `a + b`. */
  lemma {:induction false} ExecAppend<S, E>(step: (S, E) -> Option<S>, s: S, a: seq<E>, b: seq<E>)
    ensures Exec(step, s, a + b) ==
            (var r := Exec(step, s, a); if r.Some? then Exec(step, r.value, b) else None)
    decreases |a|
  {
    if a == [] {
      assert a + b == b;
    } else {
      assert (a + b)[0] == a[0] && (a + b)[1..] == a[1..] + b;
      var t := step(s, a[0]);
      if t.Some? {
        ExecAppend(step, t.value, a[1..], b);
      }
    }
  }

  /** A run goes on with one more step. */
  lemma ExecThen<S, E>(step: (S, E) -> Option<S>, s: S, a: seq<E>, e: E)
    requires Exec(step, s, a).Some?
    ensures Exec(step, s, a + [e]) == step(Exec(step, s, a).value, e)
  {
    ExecAppend(step, s, a, [e]);
    assert [e][1..] == [];
  }

  /** Outside `goal`, some event is possible and lowers `rank`. */
  ghost predicate Advances<S(!new), E(!new)>(
      step: (S, E) -> Option<S>, inv: S -> bool, rank: S -> nat, goal: S -> bool)
  {
    forall s :: inv(s) && !goal(s) ==>
      exists e :: step(s, e).Some? && rank(step(s, e).value) < rank(s)
  }

  /** Such a protocol is never stuck short of its goal: the goal can be reached from every state. */
  lemma {:induction false} CanReach<S(!new), E(!new)>(
      step: (S, E) -> Option<S>, inv: S -> bool, rank: S -> nat, goal: S -> bool, s: S)
    returns (events: seq<E>)
    requires inv(s) && Preserves(step, inv) && Advances(step, inv, rank, goal)
    ensures var r := Exec(step, s, events); r.Some? && goal(r.value)
    decreases rank(s)
  {
    if goal(s) {
      events := [];
    } else {
      var e :| step(s, e).Some? && rank(step(s, e).value) < rank(s);
      var rest := CanReach(step, inv, rank, goal, step(s, e).value);
      events := [e] + rest;
      assert events[1..] == rest;
    }
  }

  /** Every possible event lowers `rank`. */
  ghost predicate Descends<S(!new), E(!new)>(
      step: (S, E) -> Option<S>, inv: S -> bool, rank: S -> nat)
  {
    forall s, e :: inv(s) && step(s, e).Some? ==> rank(step(s, e).value) < rank(s)
  }

  /** Such a protocol has no run longer than the rank of its first state. */
  lemma {:induction false} RunLength<S(!new), E(!new)>(
      step: (S, E) -> Option<S>, inv: S -> bool, rank: S -> nat, s: S, events: seq<E>)
    requires inv(s) && Preserves(step, inv) && Descends(step, inv, rank)
    ensures Exec(step, s, events).Some? ==> |events| <= rank(s)
    decreases |events|
  {
    if events != [] {
      var t := step(s, events[0]);
      if t.Some? {
        RunLength(step, inv, rank, t.value, events[1..]);
      }
    }
  }
}
